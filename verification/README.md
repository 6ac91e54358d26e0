# AtheOS: verified models

A model in Dafny of those parts of AtheOS whose code is complete in the repository and does
something hard, with proofs of what each promises:

- **Common.dfy** - machine integers, real arithmetic by name, `Option` and a lemma on sequences, shared by the rest.
- **Spinlock.dfy, Atomic.dfy** - the recursive multiprocessor spinlock and the atomic
  operations, as transition systems with one step per memory access, over every interleaving
  of any number of CPUs; and as objects whose words the accesses change in place.
- **Checksum.dfy** - the Internet checksum loop against the one's-complement sum.
- **Mechanics.dfy, Forces.dfy, FreeFlight.dfy, Momentum.dfy, Gliding.dfy, StepSize.dfy,
  Walls.dfy, Springies.dfy** - the spring-mass integrator.  Mechanics states the reference physics
  and the Runge-Kutta step on values; Forces, FreeFlight, Momentum, Gliding, StepSize and Walls
  prove what these guarantee; Springies is the program itself, loops over the global array of
  masses, proved equal to the reference.
- **Graph.dfy, Duplicate.dfy, Preferences.dfy, FileFormat.dfy, Editor.dfy** - the spring-mass
  editor: arrays with dead slots and back-reference lists, deletion, duplication, saved states and
  the file format with its settings.  Editor holds the operations in place; the others hold the
  invariant and what each operation means.
- **MakefileEdit.dfy** - the Makefile editor that records its edits in the file and undoes them.
- **BitmapScale.dfy** - the two-pass bitmap resampler in fixed point.
- **Interlace.dfy, GifStream.dfy, GifTranslator.dfy, ImageViewer.dfy** - the GIF translator,
  its stream of frame headers and rows, and the viewer that reassembles the picture.
- **Utf8.dfy** - the UTF-8 functions of the font code, on bit vectors.
- **ItemList.dfy** - the pointer-linked list of the list view.
- **Sequencer.dfy** - the event buffer of the sound sequencer.
- **MemMove.dfy** - `memmove` and `__memcpy` within one memory.

Library functions with no body in the repository appear as parameters: `exp`, `log`, `sqrt`, `pow`
and division by zero as a record of functions with only the facts the proofs need (`Libm.Good`,
`Forces.Roots`, `Forces.PositivePowers`, `Springies.Rising`), the GIF decoder as a function from
file contents to lines, regular expressions as predicates on lines, the mass-to-radius rule as a
function.

Some results are limits of the code rather than confirmations. The lock excludes up to 2^32
nested calls and not beyond. Duplicating a spring with exactly one selected end breaks the
back-reference lists. The centre mass is saved by index and not renamed, so it survives only
without dead slots before it, and the modes of the global forces are written but not read back.
A substitution inside an inserted Makefile block can be undone only at the block's last line, and
each append leaves one empty line behind. A file whose springs name masses it does not define is
loaded soundly only if the raw numbers happen to name living masses. A bitmap no larger than the
half-width of the filter is read out of range, and a filter narrower than a source pixel can
leave a window empty and its pixel black. A GIF whose size is a multiple of 8192 is never shown,
because the viewer marks the end of the data by a short read. An item added twice to the list
view spoils its chain. Words beyond the basic plane do not survive UTF-8 encoding.

`dafny verify dfyconfig.toml` checks the whole project.

## Model

| member | source | states |
|---|---|---|
| Spinlock.AnyStepKeepsInv | include/atheos/spinlock.h:64-105 | every step of every CPU, in every intermediate window, keeps the invariant that ties the three lock words to the one CPU inside |
| Spinlock.RunsAreExclusive | include/atheos/spinlock.h:64-105 | in every interleaving of any number of CPUs whose callers nest at most 2^32 deep, at most one CPU is past acquisition, and the lock word is free exactly when none is |
| Spinlock.OwnerTestIsNeverFooled | include/atheos/spinlock.h:73-83 | the owner word names a CPU only while that CPU is inside; at the re-entry test it equals the tester exactly when the tester already holds the lock, also in the windows where lock and owner disagree |
| Spinlock.NestCountsOutstandingCalls | include/atheos/spinlock.h:74-88 | between calls the nesting word is the holder's outstanding calls, those that returned -1 included; a call returns -1 exactly from the 51st level up to the sign change |
| Spinlock.LockReturnsHolding | include/atheos/spinlock.h:64-89 | in every run, a spinlock call that has returned, however long it spun, leaves its CPU the one inside, owner of the taken lock and one level deeper, with -1 returned exactly in the levels said above |
| Spinlock.UnlockReturnsReleased | include/atheos/spinlock.h:91-105 | in every run, a spinunlock call that has returned leaves its CPU one level higher, and the lock free exactly when that was its last |
| Spinlock.ExclusiveExactlyUpToTheLimit | include/atheos/spinlock.h:75-104 | mutual exclusion holds over every run if and only if callers never nest more than 2^32 deep |
| Spinlock.BeyondTheLimit | include/atheos/spinlock.h:100-104 | a concrete run, one level deeper, that puts two CPUs inside |
| Spinlock.SpinLock.Access | include/atheos/spinlock.h:64-105 | the in-place memory access of one CPU does to the lock words and that CPU what Step says, and nothing to the others |
| Spinlock.SpinLock.CallAlone | include/atheos/spinlock.h:64-105 | a call by a CPU that finds the lock free or its own ends, having taken or given back one level |
| Spinlock.SpinLock.FinishAlone | include/atheos/spinlock.h:64-105 | a call left anywhere in its loop by contention ends, with its effect, once no other CPU is inside and none interferes |
| Atomic.Linearizable | include/atheos/atomic.h:50-122 | in every interleaving of the compare-and-exchange loops the completed operations form one order in which each returns what its predecessor left, and the word is the fold of that order modulo 2^32 |
| Atomic.CallIsEntered | include/atheos/atomic.h:50-122 | a call that runs from its first load to its end in a run has entered that order at exactly one place, as its own operation |
| Atomic.EveryEntryIsACall | include/atheos/atomic.h:50-122 | and conversely every entry of the order is one such call of the run |
| Atomic.RealTimeIsRespected | include/atheos/atomic.h:50-122 | if one call ends before another begins in a run, it stands before the other in the order |
| Atomic.FailureMeansAnotherSucceeded | include/atheos/atomic.h:56-59 | a failed compare-and-exchange names an operation of another CPU completed since this CPU last loaded the word |
| Atomic.FailuresBoundedByCompletions | include/atheos/atomic.h:56-59 | so no CPU fails more often than operations have completed |
| Atomic.AddsLoseNothing | include/atheos/atomic.h:50-64 | under any schedule of adds the word ends at its start plus all the addends, modulo 2^32 |
| Atomic.EachHasItsEffect | include/atheos/atomic.h:50-168 | in any run every completed operation leaves, of the value it returned, what its name says: the sum or difference modulo 2^32, the or or the and of every bit, the value swapped in |
| Atomic.OrsSetTheirBits | include/atheos/atomic.h:79-93 | after concurrent ors a bit is set if and only if it was set before or some operation sets it |
| Atomic.AndsKeepCommonBits | include/atheos/atomic.h:108-122 | after concurrent ands a bit is set if and only if it was set before and every operation keeps it |
| Atomic.OneDecrementReportsZero | include/atheos/atomic.h:157-168 | of the first N decrements from a positive N, however they interleave, exactly the last in the order reports true |
| Atomic.Cell.Access | include/atheos/atomic.h:50-168 | the in-place access of one CPU is the step of the transition system |
| Atomic.Cell.Perform | include/atheos/atomic.h:50-168 | a whole schedule performed in place ends in the state the transition system gives |
| Checksum.IpFastCsum | include/net/net.h:26-55 | the add-with-carry loop and the fold return the complement of the 16-bit end-around-carry sum (section 1 of RFC 1071) for every header of five words or more; shorter ones take the early exit |
| Checksum.AddWord | include/net/net.h:34-41 | each add-with-carry keeps accumulator plus carry congruent to the halves summed so far and below 2^32, so no carry is lost |
| Checksum.OwnChecksumVerifies | include/net/net.h:26-55 | a header with its own checksum stored in it sums to zero (section 3.1 of RFC 791) |
| Checksum.VerifiesIff | include/net/net.h:26-55 | a header sums to zero exactly when the plain sum of its 16-bit words is a positive multiple of 65535 |
| Checksum.OneChangedWordIsDetected | include/net/net.h:26-55 | a verified header with one 16-bit word changed verifies again only if the change is between the two zeros of one's-complement arithmetic |
| Checksum.ChecksumIsByteOrderIndependent | include/net/net.h:26-55 | summing byte-swapped words gives the byte-swapped checksum (section 2 of RFC 1071) |
| Springies.World.AccumulateAccel | apps/xspringies/phys.c:44-223 | the in-place accumulation over globals, walls, mutual attraction and springs gives every free mass the acceleration of the reference force field, and changes nothing else |
| Springies.World.RungeKutta | apps/xspringies/phys.c:225-323 | the four stages with their k1..k4 bookkeeping move every free mass by the classic fourth-order step; with testloc they put the result of that step in the test state instead, leaving the masses where the last stage had them |
| Springies.World.AdaptiveRungeKutta | apps/xspringies/phys.c:325-387 | the retry loop ends after at most 81 restarts; on exit the masses are exactly one reference step of a size d in [DT_MIN, DT_MAX] from the saved state, d minimal or accurate to the precision: no trial leaves a trace |
| Springies.AdaptationIsDetermined | apps/xspringies/phys.c:325-387 | the number of trials, the size accepted and the step left for the next frame are determined by the step before, the positions and the precision: each rejection scales the step by 0.9 exp(-log(err) / 4), the acceptance by 0.9 exp(-log(err) / 8) |
| Springies.WorstIsLargest | apps/xspringies/phys.c:353-367 | the error that decides is the largest distance of a free mass between the full step and the two half steps, at least 0.00001 |
| Springies.AcceptanceKeepsNineTenths | apps/xspringies/phys.c:368-369 | an accepted step leaves at least nine tenths of its size |
| Springies.World.AnimateObj | apps/xspringies/phys.c:389-538 | a frame is one reference step followed by the walls, measured against the state saved at its start; the step is the fixed one if so set, DEF_TSTEP without living springs, else in [DT_MIN, DT_MAX] and either minimal or accurate to the precision |
| Springies.World.RunFrames | apps/xspringies/phys.c:389-538 | over any number of frames, fixed or adaptive: fixed and dead masses stay as they are; inside four walls every free mass stays inside; without walls and without forces other than gravity, drag and springs between free masses, the total momentum follows the power series of its own equation of motion from frame to frame, and is kept when gravity and drag are off |
| StepSize.RestartsAreBounded | apps/xspringies/phys.c:371-384 | a step still above DT_MIN has been rejected fewer than 81 times |
| StepSize.RejectionShrinks | apps/xspringies/phys.c:382 | each rejection multiplies the step by at most 0.9 |
| Forces.SpringObeysHooke | apps/xspringies/phys.c:189-222 | the force of a spring on either end lies along it, and away from the other end it is ks (restlen - length) less kd times the speed of parting, whatever the masses |
| Forces.SpringSeeksRestLength | apps/xspringies/phys.c:189-222 | an undamped spring pulls its ends together if and only if it is stretched, apart if and only if compressed, and does nothing if and only if at its rest length |
| Forces.DampingTakesEnergy | apps/xspringies/phys.c:203-207 | the damping never does positive work on the relative motion of the ends; its work is -kd times the square of their speed of parting |
| Forces.SpringAdds | apps/xspringies/phys.c:189-222 | every spring adds its pull to the acceleration by all the others |
| Forces.GravityAdds | apps/xspringies/phys.c:104-117 | gravity adds the same to every free mass |
| Forces.GravityPoints | apps/xspringies/phys.c:64-71 | gravity points down at angle zero and right at 90 degrees, each component cut off to an integer |
| Forces.DragOpposes | apps/xspringies/phys.c:104-117 | drag adds -visc times the velocity |
| Forces.CentringAdds | apps/xspringies/phys.c:104-117 | the centring force adds to every free mass but a living centre mass |
| Forces.CentringDrawsBack | apps/xspringies/phys.c:73-102 | the centring force, times the total mass of all but the centre mass, is -val times the offset of their centre of mass from the centre, less misc times its velocity |
| Forces.CentrePoint | apps/xspringies/phys.c:46-62 | the centre is the living centre mass, else the middle of the room |
| Forces.AttractionAdds | apps/xspringies/phys.c:119-145 | point attraction adds to the rest |
| Forces.AttractionPoints | apps/xspringies/phys.c:119-145 | point attraction pulls straight towards the centre, by val over the distance to the power misc, and less within the two radii |
| Forces.WallForceAdds | apps/xspringies/phys.c:147-184 | the wall force adds to the rest |
| Forces.WallsAddUp | apps/xspringies/phys.c:147-184 | the forces of the four walls add up |
| Forces.WallPushesAway | apps/xspringies/phys.c:147-184 | each wall pushes a mass in front of it straight away, by val over its distance to the power misc and no nearer than 1, and does nothing to one behind it |
| Momentum.SpringIsInternal | apps/xspringies/phys.c:189-222 | one spring changes neither net force nor net torque, whether its ends are shared with others or the same mass |
| Momentum.SpringsAreInternal | apps/xspringies/phys.c:189-222 | nor do any number of springs on any graph of free masses |
| Momentum.QuietHasNoNetForce | apps/xspringies/phys.c:44-223 | with global forces and viscosity off the accelerations carry zero net force and zero net torque |
| Momentum.StepKeepsMomentum | apps/xspringies/phys.c:225-323 | a whole four-stage step of any size then leaves the total momentum unchanged |
| Gliding.MomentumFollowsSeries | apps/xspringies/phys.c:44-323 | under gravity and drag, whatever the springs between free masses, a whole four-stage step of any size takes the total momentum along the power series of p' = m g - visc p, cut after the fourth power |
| Gliding.KeptExactlyWithoutImpulse | apps/xspringies/phys.c:44-323 | without drag a step keeps the momentum if and only if gravity gives no impulse: by its strength, the total mass or the step being zero |
| Gliding.DragTakesMomentum | apps/xspringies/phys.c:44-323 | drag does not keep it: a step of size 1 / visc leaves three eighths |
| Walls.WallsConfine | apps/xspringies/phys.c:433-538 | however far a step throws it, a mass that was within four walls is put back within them |
| Walls.ConfinesExactlyWhenWalledIn | apps/xspringies/phys.c:433-538 | in a room with space for the mass, the wall code confines every mass from everywhere inside if and only if all four walls are on |
| Walls.BouncesOff | apps/xspringies/phys.c:468-535 | a mass that runs into one wall at speed v comes off it at e v less the stickiness, and e times as fast along it, if and only if e v is not less than the stickiness; else it comes to rest; one already on its way back is only put back |
| Walls.ElasticWallsKeepSpeed | apps/xspringies/phys.c:468-535 | with elasticity 1 and no stickiness the speed is kept, corners included |
| Walls.HeldExactlyWhileSlow | apps/xspringies/phys.c:446-466 | a mass at rest at a wall is held if and only if the step gave it less than the holding speed across that wall; side walls go first |
| Walls.HeldOnlyAtWalls | apps/xspringies/phys.c:446-466 | only a mass at rest within half a unit of a wall is held |
| Springies.FrameBounces | apps/xspringies/phys.c:468-535 | so in a frame: a moving free mass that runs through one wall comes off as its elasticity and the stickiness over its mass say |
| Springies.StickyMassStays | apps/xspringies/phys.c:40-42 | a free mass at rest at a wall is held there against gravity if and only if the stickiness exceeds its mass times the pull, as the calibration promises |
| Walls.WallsNeverSpeedUp | apps/xspringies/phys.c:433-538 | with elasticity in [0, 1] and non-negative stickiness no velocity component grows |
| Walls.WallsIgnoreFreeFlight | apps/xspringies/phys.c:433-538 | a mass that stays inside and was not at rest is left alone |
| Graph.SoundMeansListed | apps/xspringies/obj.c:355-382 | what the invariant is for: an alive real spring is in the lists of both its ends, both alive, and in no other list |
| Editor.Editor.DelMassParent | apps/xspringies/obj.c:365-382 | an alive mass loses one entry of the spring, order apart; a dead mass keeps its list |
| Editor.Editor.DeleteMass | apps/xspringies/obj.c:399-415 | walking its own list while delete_spring edits other lists, kills exactly the mass and the springs at it, and keeps the invariant |
| Editor.Editor.DeleteSelected | apps/xspringies/obj.c:420-435 | kills exactly the selected objects and the springs at a selected mass, and keeps the invariant |
| Graph.DeletingEnds | apps/xspringies/obj.c:399-415 | when the list of the dead mass is exhausted every spring at it has been deleted, and the graph is sound |
| Editor.Editor.CopyMasses | apps/xspringies/obj.c:764-781 | ends although the array grows under the loop, and appends one unselected copy per selected mass, in order |
| Editor.Editor.DuplicateSelected | apps/xspringies/obj.c:752-814 | leaves the originals untouched, appends the copies with ends moved to the copied masses, and keeps the invariant if and only if no selected spring has exactly one selected end |
| Duplicate.SoundExactlyWhenNoneHalfSelected | apps/xspringies/obj.c:783-810 | the same equivalence about the result alone |
| Duplicate.CopiesAreTrue | apps/xspringies/obj.c:764-791 | the c-th new mass is the c-th selected one in shape and state, unselected; the c-th new spring has the constants of the c-th selected one, its state unselected, and its ends at the copies of selected masses; with none it is dead |
| Duplicate.HalfSelectedIsUnsound | apps/xspringies/obj.c:793-804 | the copy of a half selected spring lives, and its uncopied end, untouched by the duplication, does not list it if alive: so the graph is not sound |
| Editor.Editor.ReconnectMasses | apps/xspringies/obj.c:451-464 | rebuilds every list from the springs, in order, once per end |
| Graph.RebuiltIsRegistered | apps/xspringies/obj.c:451-464 | rebuilt lists hold every spring exactly once per end |
| Editor.Editor.InitObjects | apps/xspringies/obj.c:270-288 | the empty system with its fake mass and fake spring is sound |
| Editor.Editor.AddSpring | apps/xspringies/main.cpp:437-445 | a spring between alive masses, registered at both ends, keeps the invariant |
| Editor.Editor.RestoreState | apps/xspringies/obj.c:466-483 | gives back the saved objects with rebuilt lists, sound if they were; with nothing saved, an empty memory |
| Editor.Editor.Perform | apps/xspringies/obj.c:270-496 | every edit does what its name says, to the objects, the centre, the settings and the saved state, and nothing else; it breaks the graph only if it is a duplication with a half selected spring or a load with a harmful line |
| Editor.Editor.Run | apps/xspringies/obj.c:270-496 | from the empty system on, over any run of creation, selection, deletion, duplication, saving and restoring the state, and loading files, every alive real spring stays listed at both of its alive ends; every edit of the run has its effect, and the run is performed up to and with the first duplication or load that breaks this, which is exactly a half selected spring or a file with a harmful spring line |
| Editor.Editor.Save | apps/xspringies/file.c:286-324 | writes the settings, the centre among them, and the alive masses and springs in order, fixed masses negated |
| FileFormat.SettingsOfSave | apps/xspringies/file.c:188-243 | loading a saved file gives the centre index and all the settings back, but the forces keep the modes they had |
| Preferences.LinesReadBack | apps/xspringies/file.c:192-310 | the lines of the settings, read over any others, give them back but for the modes of the forces, whose line names a mode that reading drops |
| Preferences.LinesOneByOne | apps/xspringies/file.c:292-310 | every setting is written under its own command, in order; a force line has 1 exactly for a force that is on |
| Preferences.PrefsSurviveExactly | apps/xspringies/file.c:218-310 | so the settings survive saving and loading if and only if every force is in the saved mode already |
| Editor.Editor.Resolve | apps/xspringies/file.c:247-272 | the remap loop renames both ends simultaneously, even when a new index equals an id of the file; a spring that finds neither of its masses is deleted, one that finds one keeps the other number as it is |
| Editor.Editor.LoadFile | apps/xspringies/file.c:137-276 | loading, or inserting behind untouched objects, adds the objects of the file at fresh indices with ends renamed and lists rebuilt, and reads the settings when loading; it goes beyond the arrays if and only if an unresolved number does, and else keeps the invariant if and only if every unresolved end of a surviving spring names a living mass |
| FileFormat.LoadOfSave | apps/xspringies/file.c:137-324 | loading a saved system appends its alive masses and springs in order, every end moved by the order-preserving renaming of the alive masses |
| FileFormat.PositionIsRank | apps/xspringies/file.c:257-266 | the id a spring is saved with resolves to the rank of its end among the alive masses |
| FileFormat.SavedFileRefers | apps/xspringies/file.c:312-324 | a saved file names only masses it defines |
| FileFormat.LoadedSoundExactly | apps/xspringies/file.c:247-276 | once loaded, the graph is sound if and only if every spring line is good: its ends name slots, living ones if the spring survives |
| FileFormat.LoadedInBoundsExactly | apps/xspringies/file.c:247-276 | its springs stay within the arrays if and only if every unresolved number of the file does |
| FileFormat.ReferringIsUsable | apps/xspringies/file.c:247-272 | a file that names only masses it defines can be loaded into, or inserted behind, anything |
| FileFormat.MassSurvivesExactly | apps/xspringies/file.c:167-176 | a mass reads back as itself if and only if it is positive, or zero and not fixed, and its radius is the one its mass gives |
| FileFormat.FieldsOfMassLine | apps/xspringies/file.c:163-176 | every field of a mass line is its own field of the mass, fixing the sign of the mass, both ways |
| FileFormat.CentreSurvivesExactly | apps/xspringies/file.c:207 | the centre is not renamed: it names the same mass after loading if and only if no slot before it is dead |
| MakefileEdit.EditsAreUndone | abrowse/admin/am_edit.py:63-100 | restore gives a mark-free file back exactly, after any sequence of appends and of substitutions that hit untouched lines or the last line of an inserted block |
| MakefileEdit.UndoneExactlyWhenHarmless | abrowse/admin/am_edit.py:63-100 | of all lines of an edited file whose inserted text holds no marks, restore can undo the substitution of exactly those left alone and the last of each inserted block, also where that last line was replaced before |
| MakefileEdit.NextUndoneExactlyWhenHarmless | abrowse/admin/am_edit.py:63-100 | the same equivalence after any sequence of edits that could be undone so far |
| MakefileEdit.RestoreUndoes | abrowse/admin/am_edit.py:89-100 | restore drops every inserted block and its mark, and uncovers every commented line |
| MakefileEdit.WrittenReadsBack | abrowse/admin/am_edit.py:117-128 | writing and reading back gives the lines, stripped on the right, an element that ends in a line break as two |
| MakefileEdit.EditsThroughFile | abrowse/admin/am_edit.py:63-128 | through the file, after any sequence of edits that restore can undo, the result is the original and exactly one empty line per append |
| MakefileEdit.DecimalReadsBack | abrowse/admin/am_edit.py:77 | the count in a mark reads back as the number of lines |
| MakefileEdit.EditShows | abrowse/admin/am_edit.py:63-87 | to make, which skips comments, a substitution puts its text in the place of the first line that matches, an append puts it at the end with a line break of its own, and nothing else changes |
| MakefileEdit.SplitLinesJoin | abrowse/admin/am_edit.py:74 | the lines of a text joined by line breaks are the text |
| MakefileEdit.Makefile.SubstituteLine | abrowse/admin/am_edit.py:63-77 | splices the first matching line in place |
| MakefileEdit.Makefile.AppendLines | abrowse/admin/am_edit.py:85-87 | appends a counted block |
| MakefileEdit.Makefile.Restore | abrowse/admin/am_edit.py:89-100 | the in-place loop computes the restored file, or stops where the original raises an exception |
| MakefileEdit.Makefile.WriteBack | abrowse/admin/am_edit.py:243-248 | writes every element and a line break |
| MakefileEdit.Makefile.Read | abrowse/admin/am_edit.py:117-122 | reads a file as its lines, stripped on the right |
| BitmapScale.FiltersAreNonNegative | apps/iconedit/bitmapscale.cpp:226-283 | the five filters are nowhere negative, and positive within half a source pixel |
| BitmapScale.FiltersSumToOne | apps/iconedit/bitmapscale.cpp:226-283 | the five filters are partitions of unity: shifted by whole pixels they sum to one everywhere |
| BitmapScale.DefaultWidthIsSupport | apps/iconedit/bitmapscale.cpp:118-131 | the default half-width of a filter is exactly where it stops being positive |
| BitmapScale.FilterValues | apps/iconedit/bitmapscale.cpp:226-283 | values of the filters at wholes, halves and a quarter |
| BitmapScale.FiltersAreEven | apps/iconedit/bitmapscale.cpp:226-283 | the filters are even, but for the one closed edge of the box |
| BitmapScale.SlotsSuffice | apps/iconedit/bitmapscale.cpp:61-70 | a window never has more positions than the slots allocated for it |
| BitmapScale.SourcesInRangeExactly | apps/iconedit/bitmapscale.cpp:66-72 | the mirrored positions of all windows lie in the source if and only if the half-width is below the source size |
| BitmapScale.WeightsSumToUnit | apps/iconedit/bitmapscale.cpp:79-83 | the weights of n taps are non-negative and sum to at most 65530, short of it by less than n |
| BitmapScale.CalcFilterWeight | apps/iconedit/bitmapscale.cpp:42-97 | for every positive width each window holds the mirrored positions and fixed-point weights of its filter, in the slots allocated |
| BitmapScale.Scale | apps/iconedit/bitmapscale.cpp:101-222 | the picture is the source taken through a row pass and then, column by column, through a column pass, unless a mirrored position leaves the source, which is exactly when a half-width reaches its size |
| BitmapScale.PassBounds | apps/iconedit/bitmapscale.cpp:146-178 | one pass with windows of n taps never brightens a channel beyond the maximum of its sources less one, darkens it by at most 255 (n + 5) / 65536 rounded up, within 32 bits; the clamp never fires |
| BitmapScale.LossOfShortWindows | apps/iconedit/bitmapscale.cpp:79-83 | that bound is one level if and only if the windows have at most 252 taps |
| BitmapScale.ScaleKeepsRange | apps/iconedit/bitmapscale.cpp:146-217 | for filters of any width both passes keep every channel at most the source maximum less two, and when no window is empty at least the minimum less the loss of each pass; with at most 252 taps a constant v then becomes exactly max(v - 2, 0) |
| BitmapScale.SharpFiltersInterpolate | apps/iconedit/bitmapscale.cpp:42-217 | enlarged by the cubic, box or triangle filter of any width, every pixel that falls on a source pixel is that pixel, two levels darker in each channel |
| BitmapScale.SameSizeKeepsPicture | apps/iconedit/bitmapscale.cpp:42-217 | so scaling to the same size gives the picture back, two levels darker |
| BitmapScale.BoxReducesByAveraging | apps/iconedit/bitmapscale.cpp:42-178 | reduced to the p-th part by the box filter, a pixel of a pass is the sum of p neighbouring source pixels, the middle one at p times its place, times 65530 / p over 65536 |
| BitmapScale.SourceMirrors | apps/iconedit/bitmapscale.cpp:70-72 | positions off the left edge are mirrored about the first pixel, off the right edge about the edge |
| BitmapScale.MinimumKeptExactly | apps/iconedit/bitmapscale.cpp:42-217 | for a source whose minimum is above the losses of both passes, the scaled picture stays above the minimum less these losses if and only if no window of either axis is empty |
| BitmapScale.WideFilterFillsWindows | apps/iconedit/bitmapscale.cpp:61-83 | no window of a filter at least one source pixel wide is empty |
| BitmapScale.NarrowFilterLeavesAGap | apps/iconedit/bitmapscale.cpp:61-83 | a narrower one can have an empty window: a cubic of width 0.3 from four pixels to eight |
| Interlace.EachRowOnce | translators/giftrans.cpp:183-197 | for every height the four passes visit each row exactly once, and the low bits of a row say when (GIF89a, appendix E) |
| Interlace.PaintedInterlaced | translators/giftrans.cpp:183-197 | when n rows have arrived, exactly the rows ranked below n are painted |
| GifTranslator.GIFTrans.AddLine | translators/giftrans.cpp:112-139 | appends one row of pixels in colour and alpha bytes, behind a header of its own when interlaced |
| GifTranslator.GIFTrans.DecodeData | translators/giftrans.cpp:141-259 | writes the stream of all lines that could be decoded, in visiting order, at most once |
| GifTranslator.GIFTrans.ReadTop | translators/giftrans.cpp:261-286 | nothing is handed out before the last data has been added |
| ImageViewer.Drain | apps/bmview/main.cpp:527-563 | under every split of the pixel bytes into reads, across row and frame ends, the raster ends as the frames paint it, also when the stream stops short |
| GifStream.Spread | apps/bmview/main.cpp:551-562 | a piece of a frame is spread over its rows from any position, and the position advances by the piece |
| ImageViewer.FramesPaint | translators/giftrans.cpp:182-219 | the stream paints every decoded line in its own row and nothing else, interlaced or not |
| ImageViewer.ShownAsDrawn | translators/giftrans.cpp:182-219 | a picture stored in either order is shown in its own order |
| ImageViewer.PixelsShown | translators/giftrans.cpp:127-137 | of a picture stored whole every pixel is shown in its place as blue, green, red and alpha of its colour, transparent for the transparent index |
| ImageViewer.LoadBitmap | apps/bmview/main.cpp:494-570 | a bitmap comes out if and only if the file is a GIF that decodes and its size is not a multiple of 8192; then it shows every decoded line in its row |
| Utf8.PlainRoundTrip | include/gui/font.h:52-108 | an encoded code point of the basic plane, other than a first surrogate, reads back whatever follows; its first byte announces its length and no later byte looks like a first byte (section 3 of RFC 3629) |
| Utf8.PlainBytes | include/gui/font.h:82-99 | the bytes of a plain code point are its bits from the top, six to a later byte, behind the marks of section 3 of RFC 3629 |
| Utf8.ReadsBackExactlyWhenPlain | include/gui/font.h:63-108 | over all 32-bit words, exactly those code points read back whatever follows |
| Utf8.TextRoundTrip | include/gui/font.h:52-108 | text of such code points survives encoding and walking |
| Utf8.WalkStopsAtFirstBytes | include/gui/font.h:52-63 | the walk stops at every first byte and nowhere else |
| ItemList.ListView.AddItem | apps/xspringies/listview.cpp:197-212 | appending a new item to the chain appends to the sequence; an item already in the list spoils it |
| ItemList.ListView.InsertItem | apps/xspringies/listview.cpp:230-252 | inserting succeeds exactly for indices from 0 to the length, and inserts a new item into the sequence; an item already in the list spoils it |
| ItemList.TrappedIsNoList | apps/xspringies/listview.cpp:197-252 | a spoilt list is none any more: no chain of distinct items has the length its count says |
| ItemList.ListView.GetItemAt | apps/xspringies/listview.cpp:291-306 | lookup by index, null outside |
| ItemList.ListView.RemoveItem | apps/xspringies/listview.cpp:357-370 | the walk over links removes the item from the sequence, or reports that it is not there |
| ItemList.ListView.RemoveItems | apps/xspringies/listview.cpp:434-442 | cuts the part of a range that is in the list, and reports whether that was all |
| ItemList.ListView.Run | apps/xspringies/listview.cpp:197-442 | over any run of operations, up to and with the first that adds an item already in the list, the chain stays acyclic, counted, and equal to the sequence the operations give; that first one spoils the list |
| ItemList.ActKeepsOrder | apps/xspringies/listview.cpp:197-442 | no operation makes an item appear twice or changes the order of those that stay |
| ItemList.PlacesAfter | apps/xspringies/listview.cpp:197-442 | place by place, what each operation leaves in the list |
| ItemList.RemovingUndoesInserting | apps/xspringies/listview.cpp:230-370 | removing what was inserted, by place or by pointer, gives the list back |
| ItemList.RunKeepsDistinct | apps/xspringies/listview.cpp:197-442 | over any run no item comes to be in the list twice |
| FreeFlight.StepIsTaylor | apps/xspringies/phys.c:225-323 | under gravity and viscous drag one step of any size moves a free mass by the power series of its exact motion, with the coefficients that the equation of motion gives recursively, cut after the fourth power: what the stages and their weights are for |
| FreeFlight.TaylorMotionIsSeries | apps/xspringies/phys.c:225-323 | the polynomial of the four stages is that series |
| FreeFlight.FreeFallIsExact | apps/xspringies/phys.c:225-323 | without drag that is the exact parabola |
| Sequencer.EventReadsBack | include/atheos/soundcard.h:1088-1250 | every event of four or eight bytes parses, by the documented size rule, to its own fields; system-exclusive data comes as six bytes |
| Sequencer.EventBytes | include/atheos/soundcard.h:945-1245 | the literal bytes of every event: protocol codes, arguments in their places, padding |
| Sequencer.ArrivesUnchangedExactly | include/atheos/soundcard.h:1153-1164 | an event arrives unchanged if and only if it is not system-exclusive or has exactly six bytes |
| Sequencer.StreamReadsBack | include/atheos/soundcard.h:304-311 | a stream of events reads back event by event |
| Sequencer.SeqBuffer.NeedBuf | include/atheos/soundcard.h:1066 | dumps what is pending exactly when the next event does not fit |
| Sequencer.SeqBuffer.Issue | include/atheos/soundcard.h:1065-1250 | stores one event in place; the index never passes the end of a buffer of eight bytes or more |
| Sequencer.SeqBuffer.IssueAll | include/atheos/soundcard.h:1046-1067 | over any sequence of events the dumps followed by the pending bytes are exactly their stream, and no event straddles a dump |
| MemMove.Memmove | include/atheos/string.h:366-389 | for every overlap and length the destination ends as the old source, and nothing else changes |
| MemMove.Memcpy | include/atheos/string.h:270-287 | double words, then a word, then a byte, copy exactly n bytes for every n, unless the destination lies within the source above its start |
| MemMove.AscendingIsRightExactly | include/atheos/string.h:370-388 | the direction test is needed: to a higher address an ascending copy is right if and only if the source repeats with the distance of the ranges |

## Left out

- Spinlock.RunsAreExclusive: sequential consistency; interrupts, which are off while the lock is held, and the `printk` at line 77 are not modelled.
- Spinlock.SpinLock.CallAlone: says nothing about fairness; a CPU that loses every swap spins for ever.
- Atomic.Linearizable: sequential consistency, and one sequential thread per CPU.
- Atomic.OneDecrementReportsZero: about runs of decrements only.
- Checksum.IpFastCsum: the header is an array of bytes; what the loop would read beyond a header shorter than its length word says is not modelled.
- Springies.World.RungeKutta: `double` is `real`; rounding, overflow and NaN are not modelled, and division by zero is an unknown value.
- Springies.World.AnimateObj: the redraw throttle (`time_elapsed`, `num_since`) and drawing are not modelled.
- Springies.World.RunFrames: with fewer than four walls confinement fails (Walls.ConfinesExactlyWhenWalledIn), and gravity and drag change the momentum (Gliding.KeptExactlyWithoutImpulse, Gliding.DragTakesMomentum); nothing is said of momentum under the centre force, mutual attraction, wall repulsion, or springs at fixed masses.
- Editor.Editor.Run: nothing is said of edits of a broken graph; the fake spring that follows the mouse is outside the invariant, as its list entries are deliberately loose; mouse handling itself is not modelled.
- Editor.Editor.LoadFile: ids in a file are natural numbers; when a raw number lies beyond the masses there are, the original indexes outside its array, and nothing is said of what it leaves.
- Editor.Editor.Save: numbers are exact, not `printf` digits.
- FileFormat.LoadOfSave: for systems saved with no spring being drawn; selection and temporary fixing are not saved.
- Array growth and `realloc` in the editor: arrays are sequences, so capacity does not appear.
- MakefileEdit.Makefile.SubstituteLine: the regular expression is a predicate on the line.
- MakefileEdit.Makefile.Read: the joining of continuation lines and the target logic that follow the read loop are not modelled.
- MakefileEdit.Makefile.Restore: a count is unsigned digits after blanks, the only kind the editor writes; a sign or trailing blanks count as unreadable.
- BitmapScale.Scale: `float` is `real`; rows have no padding; the Lanczos and Mitchell filters, which go negative, are not modelled; where a half-width reaches the source size, the original reads out of range, and nothing is said of what it makes.
- BitmapScale.CalcFilterWeight: for positive widths; a width of zero stands for the default of the filter.
- ImageViewer.LoadBitmap: images at the top left of their screen; file reads are full up to the last; a header read returns a whole header; the circular buffer is an ideal first-in first-out queue; sizes do not wrap; the raster has no row padding; other translators and the BMP loader are not modelled.
- Utf8.TextRoundTrip: bytes beyond the end of a string read as zero.
- ItemList.ListView.Run: nothing is said of operations on a spoilt list, where the original may walk for ever; drawing and selection are not modelled.
- FreeFlight.StepIsTaylor: for gravity and drag, whose exact motion has a closed form; nothing is claimed about accuracy under springs beyond the error test of the adaptive step.
- Sequencer.SeqBuffer.Issue: macro arguments are as wide as their fields; patch loading and the OSSLIB variants are not modelled, nor is a failing write, which ends the program.
- MemMove.Memcpy: addresses do not wrap; the other string functions are not modelled.
- Translators for PNG and JPEG, which wrap libraries whose sources are not part of the repository.
- Drivers, the application server protocol and the GUI classes, of which the repository holds declarations only.
