/** The editor's operations on the spring graph, in place. */
module Editor {
  import opened Common
  import opened Graph
  import opened Duplicate
  import opened FileFormat
  import Preferences

  class Editor {
    var masses: seq<Mass>
    var springs: seq<Spring>
    var centre: int
    var prefs: Preferences.Prefs
    var saved: Option<Snapshot>

    ghost predicate Valid()
      reads this
    {
      Sound(masses, springs)
    }

    // -------------------------------------------------------------------------
    // Deleting
    // -------------------------------------------------------------------------

    method AddMassParent(which: nat, parent: nat)
      requires which < |masses|
      modifies this`masses
      ensures masses == old(masses)[which := old(masses[which]).(pars := old(masses[which].pars) + [parent])]
    {
      masses := masses[which := masses[which].(pars := masses[which].pars + [parent])];
    }

    /** Drops the first entry, overwriting it by the last; a dead mass keeps its list. */
    method DelMassParent(which: nat, parent: nat)
      requires which < |masses|
      modifies this`masses
      ensures OnlyLists(old(masses), masses)
      ensures forall i :: 0 <= i < |masses| && i != which ==> masses[i] == old(masses)[i]
      ensures old(masses)[which].status.alive ==> Unlisted(old(masses)[which], masses[which], parent, 1)
      ensures NotListed(old(masses)[which], parent) ==> masses == old(masses)
    {
      if masses[which].status.alive {
        var pars := masses[which].pars;
        for i := 0 to |pars|
          invariant masses == old(masses) && parent !in pars[..i]
        {
          if pars[i] == parent {
            DropEntryCounts(pars, i);
            masses := masses[which := masses[which].(pars := DropEntry(pars, i))];
            return;
          }
        }
        assert pars[..|pars|] == pars;
      }
    }

    method DeleteSpring(which: nat)
      requires which < |springs| && springs[which].m1 < |masses| && springs[which].m2 < |masses|
      modifies this`masses, this`springs
      ensures old(springs[which]).status.alive ==>
                springs == old(springs)[which := Killed(old(springs[which]))]
                && SpringUnlisted(old(masses), masses, old(springs[which]), which)
      ensures !old(springs[which]).status.alive ==> springs == old(springs) && masses == old(masses)
      ensures NotListed(old(masses[springs[which].m1]), which) && NotListed(old(masses[springs[which].m2]), which) ==>
                masses == old(masses)
    {
      if springs[which].status.alive {
        springs := springs[which := Killed(springs[which])];
        DelMassParent(springs[which].m1, which);
        ghost var middle := masses;
        DelMassParent(springs[which].m2, which);
      }
    }

    /** Deletes a mass and the springs at it; walks the mass's own list, which stays put
        because the mass is dead by then. */
    method DeleteMass(which: nat)
      requires Valid() && which < |masses|
      modifies this`masses, this`springs, this`centre
      ensures Valid()
      ensures !old(masses[which]).status.alive ==> masses == old(masses) && springs == old(springs)
      ensures old(masses[which]).status.alive ==> MassDeleted(old(masses), old(springs), masses, springs, which)
      ensures centre == if which == old(centre) then -1 else old(centre)
    {
      ghost var ms, ss := masses, springs;
      if masses[which].status.alive {
        masses := masses[which := masses[which].(status := DEAD)];
        MassKilled(ms, ss, which);
        assert ms[which].pars[0..] == ms[which].pars;
        hide Sound, SoundBut, SpringUnlisted;
        var i := 0;
        while i < |masses[which].pars|
          invariant centre == old(centre)
          invariant Deleting(ms, ss, masses, springs, which, i)
          decreases |ms[which].pars| - i
        {
          ghost var before, springsBefore := masses, springs;
          InRange(ms, ss, masses, springs, which, i);
          var p := masses[which].pars[i];
          DeleteSpring(p);
          DeletingStep(ms, ss, before, springsBefore, masses, which, i, p);
          i := i + 1;
        }
        DeletingEnds(ms, ss, masses, springs, which);
      }
      if which == centre {
        centre := -1;
      }
    }

    /** Deletes the selected masses with the springs at them, then the selected springs. */
    method DeleteSelected()
      requires Valid()
      modifies this`masses, this`springs, this`centre
      ensures Valid()
      ensures |masses| == |old(masses)| && SelectionDeleted(old(masses), old(springs), masses, springs)
      ensures centre ==
                if 0 <= old(centre) < |masses| && old(masses)[old(centre)].status.selected then -1
                else old(centre)
    {
      ghost var ms, ss := masses, springs;
      for i := 0 to |masses|
        invariant Valid() && |masses| == |ms| && MassesGone(ms, ss, masses, springs, i)
        invariant centre == if 0 <= old(centre) < i && ms[old(centre)].status.selected then -1 else old(centre)
      {
        ghost var ms1, ss1 := masses, springs;
        hide MassesGone, MassDeleted, ListsInRange, Registered, Closed;
        assert masses[i].status.selected <==> ms[i].status.selected by { NextMass(ms, ss, masses, springs, i); }
        if masses[i].status.selected {
          DeleteMass(i);
          OneMassGone(ms, ss, ms1, ss1, masses, springs, i);
        } else {
          NoMassGone(ms, ss, ms1, ss1, i);
        }
      }
      DeleteSelectedSprings(ms, ss);
    }

    method DeleteSelectedSprings(ghost ms: seq<Mass>, ghost ss: seq<Spring>)
      requires Valid() && Shaped(ms, ss) && SpringsGone(ms, ss, masses, springs, 0)
      modifies this`masses, this`springs
      ensures Valid() && SelectionDeleted(ms, ss, masses, springs)
    {
      for j := 0 to |springs|
        invariant Valid() && |springs| == |ss| && SpringsGone(ms, ss, masses, springs, j)
      {
        ghost var ms1, ss1 := masses, springs;
        hide ListsInRange, Registered, Closed, SpringUnlisted;
        if springs[j].status.selected {
          DeleteSpring(j);
          SpringDeletionIsSound(ms1, ss1, masses, j);
          OneSpringGone(ms, ss, ms1, ss1, masses, j);
        }
      }
    }

    // -------------------------------------------------------------------------
    // Duplicating
    // -------------------------------------------------------------------------

    method CreateMass() returns (which: nat)
      modifies this`masses
      ensures which == |old(masses)|
      ensures masses == old(masses) + [Mass(Shape(0.0, 0.0, 0.0, 0.0, 0.0, 0.0, 0), [], LIVE)]
    {
      which := |masses|;
      masses := masses + [Mass(Shape(0.0, 0.0, 0.0, 0.0, 0.0, 0.0, 0), [], LIVE)];
    }

    method CreateSpring() returns (which: nat)
      modifies this`springs
      ensures which == |old(springs)| && springs == old(springs) + [Spring(0, 0, 0.0, 0.0, 0.0, LIVE)]
    {
      which := |springs|;
      springs := springs + [Spring(0, 0, 0.0, 0.0, 0.0, LIVE)];
    }

    /** Copies the selected masses; the array grows under the loop, but copies are not selected. */
    method CopyMasses() returns (mapfrom: seq<nat>, mapto: seq<nat>)
      modifies this`masses
      ensures mapfrom == Chosen(old(masses), |old(masses)|) && |mapto| == |mapfrom|
      ensures forall c :: 0 <= c < |mapto| ==> mapto[c] == |old(masses)| + c
      ensures masses == old(masses) + CopiedMasses(old(masses), |old(masses)|)
      ensures MassesCopied(old(masses), masses)
    {
      ghost var ms := masses;
      mapfrom, mapto := [], [];
      ChosenNone(ms);
      MassesAreCopied(ms);
      hide Chosen, CopiedMasses, MassesCopied;
      var i := 0;
      while i < |masses|
        invariant 0 <= i <= |masses| && |mapto| == |mapfrom|
        invariant mapfrom == Chosen(ms, if i < |ms| then i else |ms|)
        invariant forall c :: 0 <= c < |mapto| ==> mapto[c] == |ms| + c
        invariant masses == ms + CopiedMasses(ms, if i < |ms| then i else |ms|)
        decreases |ms| + |Chosen(ms, |ms|)| - i
      {
        if i < |ms| {
          ChosenStep(ms, i);
        }
        if masses[i].status.selected {
          ghost var before := masses;
          var which := CreateMass();
          mapto := mapto + [which];
          mapfrom := mapfrom + [i];
          masses := masses[which := masses[i].(status := masses[i].status.(selected := false), pars := [])];
          assert masses == before + [CopyMass(before[i])];
        }
        i := i + 1;
      }
    }

    /** Moves the ends of the new spring to the copies of their masses, registering it there. */
    method ConnectCopy(which: nat, mapfrom: seq<nat>, mapto: seq<nat>, ghost ms: seq<Mass>)
      returns (m1done: bool, m2done: bool)
      requires which < |springs| && springs[which].m1 < |ms| && springs[which].m2 < |ms|
      requires mapfrom == Chosen(ms, |ms|) && |mapto| == |mapfrom| && |masses| == |ms| + |mapfrom|
      requires forall c :: 0 <= c < |mapto| ==> mapto[c] == |ms| + c
      modifies this`masses, this`springs
      ensures var s := old(springs[which]);
              && m1done == ms[s.m1].status.selected && m2done == ms[s.m2].status.selected
              && springs == old(springs)[which := s.(m1 := Renamed(ms, s.m1), m2 := Renamed(ms, s.m2))]
      ensures Connected(ms, old(masses), masses, springs[which], which)
    {
      ghost var start, s := masses, springs[which];
      NothingConnected(ms, masses, s, which);
      m1done, m2done := false, false;
      hide Connected, EndMoved, Renamed;
      NothingSeen(ms, s.m1, mapfrom);
      NothingSeen(ms, s.m2, mapfrom);
      var j := 0;
      while (!m1done || !m2done) && j < |mapfrom|
        invariant 0 <= j <= |mapfrom| && |masses| == |start| && |springs| == |old(springs)|
        invariant springs == old(springs)[which := s.(m1 := springs[which].m1, m2 := springs[which].m2)]
        invariant !m1done ==> springs[which].m1 == s.m1
        invariant !m2done ==> springs[which].m2 == s.m2
        invariant EndMoved(ms, s.m1, springs[which].m1, m1done, mapfrom, j)
        invariant EndMoved(ms, s.m2, springs[which].m2, m2done, mapfrom, j)
        invariant Connected(ms, start, masses, springs[which], which)
      {
        EndSeen(ms, s.m1, springs[which].m1, m1done, mapfrom, j);
        EndSeen(ms, s.m2, springs[which].m2, m2done, mapfrom, j);
        if !m1done && springs[which].m1 == mapfrom[j] {
          EndConnected(ms, start, masses, springs[which], springs[which].(m1 := mapto[j]), mapto[j], which);
          springs := springs[which := springs[which].(m1 := mapto[j])];
          AddMassParent(mapto[j], which);
          m1done := true;
        }
        if !m2done && springs[which].m2 == mapfrom[j] {
          EndConnected(ms, start, masses, springs[which], springs[which].(m2 := mapto[j]), mapto[j], which);
          springs := springs[which := springs[which].(m2 := mapto[j])];
          AddMassParent(mapto[j], which);
          m2done := true;
        }
        j := j + 1;
      }
      EndDone(ms, s.m1, springs[which].m1, m1done, mapfrom, j);
      EndDone(ms, s.m2, springs[which].m2, m2done, mapfrom, j);
    }

    /** The copy of spring i. */
    method CopyOneSpring(i: nat, mapfrom: seq<nat>, mapto: seq<nat>, ghost ms: seq<Mass>)
      requires i < |springs| && springs[i].m1 < |ms| && springs[i].m2 < |ms|
      requires mapfrom == Chosen(ms, |ms|) && |mapto| == |mapfrom| && |masses| == |ms| + |mapfrom|
      requires forall c :: 0 <= c < |mapto| ==> mapto[c] == |ms| + c
      requires springs[i].status.alive
      requires forall k :: 0 <= k < |ms| ==> masses[k] == ms[k] && NotListed(ms[k], |springs|)
      modifies this`masses, this`springs
      ensures springs == old(springs) + [CopySpring(ms, old(springs[i]))]
      ensures Connected(ms, old(masses), masses, CopySpring(ms, old(springs[i])), |old(springs)|)
    {
      var which := CreateSpring();
      springs := springs[which := springs[i].(status := springs[i].status.(selected := false))];
      var m1done, m2done := ConnectCopy(which, mapfrom, mapto, ms);
      if !m1done && !m2done {
        DeleteSpring(which);
      }
    }

    /** Copies the selected masses and the selected springs.  The copy of a spring moves each
        end that was copied; one with no end copied is deleted again. */
    method DuplicateSelected()
      requires Valid()
      modifies this`masses, this`springs
      ensures Duplicated(old(masses), old(springs), masses, springs, |old(springs)|)
      ensures MassesCopied(old(masses), masses) && SpringsCopied(old(masses), old(springs), springs)
      ensures Valid() <==> NoneHalfSelected(old(masses), old(springs))
    {
      ghost var ms, ss := masses, springs;
      var springStart := |springs|;
      var mapfrom, mapto := CopyMasses();
      NothingCopied(ms, ss, masses);
      for i := 0 to springStart
        invariant Duplicated(ms, ss, masses, springs, i)
      {
        ghost var ms1, ss1 := masses, springs;
        if springs[i].status.selected {
          InCopyRange(ms, ss, masses, springs, i);
          CopyOneSpring(i, mapfrom, mapto, ms);
          CopyAdded(ms, ss, ms1, ss1, masses, i);
        } else {
          SpringNotCopied(ms, ss, ms1, ss1, i);
        }
      }
      hide MassesCopied, SpringsCopied;
      CopiesAreTrue(ms, ss, masses, springs);
      SoundExactlyWhenNoneHalfSelected(ms, ss, masses, springs);
    }

    // -------------------------------------------------------------------------
    // Creating, selecting, saving the state
    // -------------------------------------------------------------------------

    /** An empty system: the fake mass, fixed and not alive, and the fake spring at it. */
    method InitObjects()
      modifies this`masses, this`springs
      ensures masses == EMPTY_MASSES && springs == EMPTY_SPRINGS && Valid()
    {
      masses, springs := [], [];
      var fakeMass := CreateMass();
      masses := masses[fakeMass := masses[fakeMass].(status := Status(false, false, true, false))];
      var fakeSpring := CreateSpring();
      springs := springs[fakeSpring := springs[fakeSpring].(status := DEAD)];
      AddMassParent(fakeMass, fakeSpring);
      assert masses[fakeMass].pars == [FAKE];
      springs := springs[fakeSpring := springs[fakeSpring].(m1 := fakeMass)];
    }

    constructor (prefs: Preferences.Prefs)
      ensures Valid() && SavedIsSound() && this.prefs == prefs
      ensures masses == EMPTY_MASSES && springs == EMPTY_SPRINGS && centre == -1 && saved == None
    {
      masses, springs, centre, saved := [], [], -1, None;
      this.prefs := prefs;
      new;
      InitObjects();
    }

    /** The mouse adds a mass. */
    method AddMass(shape: Shape, fixed: bool)
      requires Valid()
      modifies this`masses
      ensures Valid() && masses == old(masses) + [Mass(shape, [], Status(true, false, fixed, false))]
    {
      ghost var ms := masses;
      var newm := CreateMass();
      masses := masses[newm := masses[newm].(shape := shape, status := Status(true, false, fixed, false))];
      assert masses == ms + [Mass(shape, [], Status(true, false, fixed, false))];
      AddedMassIsSound(ms, springs, masses[newm]);
    }

    /** The mouse joins two living masses. */
    method AddSpring(m1: nat, m2: nat, ks: real, kd: real, restlen: real)
      requires Valid() && m1 < |masses| && m2 < |masses| && masses[m1].status.alive && masses[m2].status.alive
      modifies this`masses, this`springs
      ensures Valid() && springs == old(springs) + [Spring(m1, m2, ks, kd, restlen, LIVE)]
      ensures |masses| == |old(masses)|
      ensures forall i :: 0 <= i < |masses| ==>
                masses[i] == old(masses)[i].(
                  pars := old(masses)[i].pars + Entries(springs[|old(springs)|], |old(springs)|, i))
    {
      ghost var ms, ss := masses, springs;
      var which := CreateSpring();
      springs := springs[which := springs[which].(m1 := m1, m2 := m2, ks := ks, kd := kd, restlen := restlen)];
      var s := springs[which];
      RegisterSpring(which, s);
      assert springs == ss + [s];
      AddedSpringIsSound(ms, ss, masses, s);
      hide Sound;
    }

    /** Selects an object, or toggles it when shifted; the mouse only reaches living ones. */
    method SelectMass(i: nat, shifted: bool)
      requires Valid() && i < |masses| && masses[i].status.alive
      modifies this`masses
      ensures Valid()
      ensures masses == old(masses)[i := old(masses[i]).(status := old(masses[i]).status.(selected :=
                          !shifted || !old(masses[i]).status.selected))]
    {
      var s := masses[i].status;
      masses := masses[i := masses[i].(status := s.(selected := if shifted then !s.selected else true))];
    }

    method SelectSpring(j: nat, shifted: bool)
      requires Valid() && j < |springs| && springs[j].status.alive
      modifies this`springs
      ensures Valid()
      ensures springs == old(springs)[j := old(springs[j]).(status := old(springs[j]).status.(selected :=
                          !shifted || !old(springs[j]).status.selected))]
    {
      var s := springs[j].status;
      springs := springs[j := springs[j].(status := s.(selected := if shifted then !s.selected else true))];
    }

    /** One list entry per end. */
    method RegisterSpring(j: nat, s: Spring)
      requires s.m1 < |masses| && s.m2 < |masses|
      modifies this`masses
      ensures |masses| == |old(masses)|
      ensures forall i :: 0 <= i < |masses| ==>
                masses[i] == old(masses)[i].(pars := old(masses)[i].pars + Entries(s, j, i))
    {
      ghost var ms := masses;
      AddMassParent(s.m1, j);
      AddMassParent(s.m2, j);
      forall i | 0 <= i < |masses| ensures masses[i].pars == ms[i].pars + Entries(s, j, i) {
        assert ms[i].pars + [j] + [j] == ms[i].pars + [j, j];
      }
    }

    /** Every list from scratch. */
    method ReconnectMasses()
      requires EndsFit(masses, springs)
      modifies this`masses
      ensures ListsRebuilt(masses, springs) && |masses| == |old(masses)|
      ensures forall i :: 0 <= i < |masses| ==> masses[i] == old(masses)[i].(pars := masses[i].pars)
    {
      ghost var ms := masses;
      for i := 0 to |masses|
        invariant |masses| == |ms|
        invariant forall k :: 0 <= k < |ms| ==> masses[k] == if k < i then ms[k].(pars := []) else ms[k]
      {
        masses := masses[i := masses[i].(pars := [])];
      }
      for j := 0 to |springs|
        invariant |masses| == |ms|
        invariant forall k :: 0 <= k < |ms| ==> masses[k] == ms[k].(pars := Incident(springs, k, j))
      {
        RegisterSpring(j, springs[j]);
        hide Entries;
      }
    }

    method SaveState()
      modifies this`saved
      ensures saved == Some(Snapshot(masses, springs))
    {
      saved := Some(Snapshot(masses, springs));
    }

    /** Back to the saved state, lists rebuilt; with nothing saved, an empty memory. */
    method RestoreState()
      requires saved.Some? ==> EndsFit(saved.value.masses, saved.value.springs)
      modifies this`masses, this`springs, this`centre
      ensures centre == -1
      ensures saved == None ==> masses == [] && springs == []
      ensures saved.Some? ==>
                && springs == saved.value.springs && |masses| == |saved.value.masses|
                && (forall i :: 0 <= i < |masses| ==>
                      masses[i] == saved.value.masses[i].(pars := Incident(springs, i, |springs|)))
                && (Sound(saved.value.masses, saved.value.springs) ==> Valid())
    {
      masses, springs, centre := [], [], -1;
      if saved.Some? {
        masses, springs := saved.value.masses, saved.value.springs;
        ReconnectMasses();
        RebuiltIsSound(saved.value.masses, saved.value.springs, masses);
        hide Sound, Incident;
      }
    }

    ghost predicate SavedIsSound()
      reads this
    {
      saved.Some? ==> Sound(saved.value.masses, saved.value.springs)
    }

    /** All there is. */
    ghost function Whole(): Memory
      reads this
    {
      Memory(Now(), saved)
    }

    /** One edit, when the user interface would offer it, does what its name says.  A selection
        with a half selected spring, or a file with a harmful line, breaks the graph; nothing
        else does. */
    method Perform(edit: Edit) returns (wild: bool)
      requires Valid() && SavedIsSound()
      modifies this
      ensures wild || Effect(edit, old(Whole()), Whole())
      ensures !Breaks(edit, old(masses), old(springs)) ==> Valid() && SavedIsSound()
      ensures Breaks(edit, old(masses), old(springs)) && !wild ==> !Valid()
      ensures wild ==> edit.Load? && Breaks(edit, old(masses), old(springs))
    {
      hide Sound, Loaded, Duplicated, SelectionDeleted, MassDeleted, Usable, NoneHalfSelected, EndsFit, InBounds,
        MassesCopied, SpringsCopied, SettingsRead, SpringUnlisted, ListsRebuilt, Incident, SameObjects;
      wild := false;
      match edit {
        case NewMass(shape, fixed) => AddMass(shape, fixed);
        case NewSpring(m1, m2, ks, kd, len) => JoinMasses(m1, m2, ks, kd, len);
        case PickMass(i, shifted) => if i < |masses| && masses[i].status.alive { SelectMass(i, shifted); }
        case PickSpring(j, shifted) => if j < |springs| && springs[j].status.alive { SelectSpring(j, shifted); }
        case DropMass(i) => if i < |masses| { DropAMass(i); }
        case DropSpring(j) => if j < |springs| { DropASpring(j); }
        case DropSelection => DeleteSelected();
        case CopySelection =>
          SoundMeansFit(masses, springs);
          DuplicateSelected();
        case Remember => SaveState();
        case Recall => RecallState();
        case Load(radius, file, insert) =>
          if Usable(file, Start(insert, masses)) {
            UsableIsInBounds(file, Start(insert, masses));
          }
          var selectnew;
          selectnew, wild := LoadFile(radius, file, insert);
      }
    }

    /** Runs of edits, up to and with the first that breaks the graph: `done` edits were
        harmless.  The memories between them show what each did. */
    method Run(edits: seq<Edit>) returns (done: nat, wild: bool, ghost between: seq<Memory>)
      requires Valid() && SavedIsSound()
      modifies this
      ensures done <= |edits|
      ensures done == |edits| ==> Valid() && SavedIsSound() && !wild
      ensures done < |edits| ==>
                && (edits[done].CopySelection? || edits[done].Load?)
                && (!Valid() || (wild && edits[done].Load?))
      ensures |between| == done + 1 && between[0] == old(Whole())
      ensures forall n :: 0 <= n < done ==> Effect(edits[n], between[n], between[n + 1])
      ensures if done == |edits| then between[done] == Whole()
              else wild || Effect(edits[done], between[done], Whole())
    {
      wild := false;
      between := [Whole()];
      for n := 0 to |edits|
        invariant Valid() && SavedIsSound() && !wild
        invariant |between| == n + 1 && between[0] == old(Whole()) && between[n] == Whole()
        invariant forall k :: 0 <= k < n ==> Effect(edits[k], between[k], between[k + 1])
      {
        hide Valid, SavedIsSound, Effect;
        var breaks := WouldBreak(edits[n]);
        wild := Perform(edits[n]);
        if breaks {
          return n, wild, between;
        }
        between := between + [Whole()];
      }
      done := |edits|;
    }

    method WouldBreak(edit: Edit) returns (breaks: bool)
      requires Valid()
      ensures breaks <==> Breaks(edit, masses, springs)
      ensures breaks ==> edit.CopySelection? || edit.Load?
    {
      SoundMeansFit(masses, springs);
      match edit {
        case CopySelection => breaks := !NoneHalfSelected(masses, springs);
        case Load(_, file, insert) => breaks := !Usable(file, Start(insert, masses));
        case _ => breaks := false;
      }
    }

    method JoinMasses(m1: nat, m2: nat, ks: real, kd: real, restlen: real)
      requires Valid()
      modifies this`masses, this`springs
      ensures Valid()
      ensures if Joinable(old(masses), m1, m2) then
                SameObjects(old(masses), masses) && springs == old(springs) + [Spring(m1, m2, ks, kd, restlen, LIVE)]
              else masses == old(masses) && springs == old(springs)
    {
      if Joinable(masses, m1, m2) {
        AddSpring(m1, m2, ks, kd, restlen);
      }
    }

    method DropAMass(i: nat)
      requires Valid() && i < |masses|
      modifies this`masses, this`springs, this`centre
      ensures Valid() && centre == if i == old(centre) then -1 else old(centre)
      ensures if old(masses[i]).status.alive then MassDeleted(old(masses), old(springs), masses, springs, i)
              else masses == old(masses) && springs == old(springs)
    {
      DeleteMass(i);
    }

    method DropASpring(j: nat)
      requires Valid() && j < |springs|
      modifies this`masses, this`springs
      ensures Valid()
      ensures if old(springs[j]).status.alive then
                springs == old(springs)[j := Killed(old(springs[j]))]
                && SpringUnlisted(old(masses), masses, old(springs[j]), j)
              else masses == old(masses) && springs == old(springs)
    {
      ghost var ms, ss := masses, springs;
      DeleteSpring(j);
      if ss[j].status.alive { SpringDeletionIsSound(ms, ss, masses, j); }
    }

    method RecallState()
      requires Valid() && SavedIsSound()
      modifies this`masses, this`springs, this`centre
      ensures Valid()
      ensures match old(saved)
              case None => Now() == old(Now())
              case Some(snapshot) => centre == -1 && springs == snapshot.springs && SameObjects(snapshot.masses, masses)
    {
      if saved.Some? {
        RestoreState();
      }
    }

    // -------------------------------------------------------------------------
    // Files
    // -------------------------------------------------------------------------

    method Save() returns (f: seq<Record>)
      ensures f == FileOf(masses, springs, centre, prefs)
    {
      hide Header, MassLines, SpringLines;
      var header := SaveSettings();
      var lines := SaveMasses();
      var more := SaveSprings();
      f := header + lines + more;
    }

    method SaveSettings() returns (f: seq<Record>)
      ensures f == Header(centre, prefs)
    {
      hide Preferences.ForceLine;
      var p := prefs;
      f := PrefRecs(Preferences.Numbers(p) + Preferences.Switches(p)) + [CentRec(centre)];
      ghost var start := f;
      for i := 0 to Preferences.BF_NUM
        invariant f == start + PrefRecs(Preferences.Forces(p, i))
      {
        f := f + [PrefRec(Preferences.ForceLine(p, i))];
      }
      f := f + PrefRecs(Preferences.Stepping(p)) + PrefRecs(Preferences.Rest(p));
      HeaderInParts(start, Preferences.Forces(p, Preferences.BF_NUM), Preferences.Stepping(p), Preferences.Rest(p));
    }

    method SaveMasses() returns (lines: seq<Record>)
      ensures lines == MassLines(masses, |masses|)
    {
      lines := [];
      assert MassLines(masses, 0) == [];
      hide MassLines, MassLine;
      for i := 0 to |masses|
        invariant lines == MassLines(masses, i)
      {
        SavedMassesStep(masses, i);
        if masses[i].status.alive {
          lines := lines + [MassLine(i, masses[i])];
        }
      }
    }

    method SaveSprings() returns (lines: seq<Record>)
      ensures lines == SpringLines(springs, |springs|)
    {
      lines := [];
      assert SpringLines(springs, 0) == [];
      hide SpringLines, SpringLine;
      for j := 0 to |springs|
        invariant lines == SpringLines(springs, j)
      {
        SavedSpringsStep(springs, j);
        if springs[j].status.alive {
          lines := lines + [SpringLine(j, springs[j])];
        }
      }
    }

    method AnythingSelected() returns (any: bool)
      ensures any <==> !NothingSelected(masses, springs)
    {
      any := false;
      for i := 0 to |masses|
        invariant forall k :: 0 <= k < i ==> !masses[k].status.selected
      {
        if masses[i].status.selected { return true; }
      }
      for j := 0 to |springs|
        invariant forall k :: 0 <= k < j ==> !springs[k].status.selected
      {
        if springs[j].status.selected { return true; }
      }
    }

    /** The objects, the centre and the settings. */
    ghost function Now(): System
      reads this
    {
      System(masses, springs, centre, prefs)
    }

    /** Reads one line. */
    method ReadLine(radius: Radius, r: Record, selectnew: bool, insert: bool)
      modifies this`masses, this`springs, this`centre, this`prefs
      ensures LineRead(radius, r, selectnew, insert, old(Now()), Now())
    {
      match r {
        case MassRec(_, x, y, vx, vy, mass, elastic) =>
          var which := CreateMass();
          var m := if mass < 0.0 then -mass else mass;
          masses := masses[which := masses[which].(
            shape := Shape(x, y, vx, vy, m, elastic, radius(m)),
            status := Status(true, selectnew, mass < 0.0, false))];
        case SpngRec(_, m1, m2, ks, kd, restlen) =>
          var which := CreateSpring();
          springs := springs[which := Spring(m1, m2, ks, kd, restlen, Status(true, selectnew, false, false))];
        case CentRec(c) =>
          if !insert {
            centre := c;
          }
        case PrefRec(line) =>
          if !insert {
            prefs := Preferences.Read(prefs, line);
          }
      }
    }

    /** Reads the lines of a file one by one, the springs still with the ids of the file. */
    method ReadLines(radius: Radius, f: seq<Record>, selectnew: bool, insert: bool)
      returns (mapfrom: seq<nat>, mapto: seq<nat>)
      modifies this`masses, this`springs, this`centre, this`prefs
      ensures LinesRead(radius, f, selectnew, insert, old(Now()), Now(), mapfrom, mapto)
    {
      ghost var was := Now();
      mapfrom, mapto := [], [];
      NoLinesRead(radius, selectnew, insert, was);
      assert f[..0] == [];
      hide LinesRead, LineRead;
      for n := 0 to |f|
        invariant LinesRead(radius, f[..n], selectnew, insert, was, Now(), mapfrom, mapto)
      {
        ghost var now, from, to := Now(), mapfrom, mapto;
        if f[n].MassRec? {
          mapfrom, mapto := mapfrom + [f[n].id], mapto + [|masses|];
        }
        ReadLine(radius, f[n], selectnew, insert);
        LinesReadSnoc(radius, f[..n], f[n], selectnew, insert, was, now, Now(), from, to);
        assert f[..n + 1] == f[..n] + [f[n]];
      }
      assert f[..|f|] == f;
    }

    /** Replaces the ids of a spring just read by indices: every end at most once, so that an
        index already put in is never taken for an id. */
    method RenameEnds(j: nat, mapfrom: seq<nat>, mapto: seq<nat>, ghost lines: seq<Record>, ghost base: nat)
      returns (m1done: bool, m2done: bool)
      requires j < |springs| && AllMasses(lines) && MapsTo(lines, base, mapfrom, mapto)
      modifies this`springs
      ensures var s := old(springs[j]);
              && springs == old(springs)[j := s.(m1 := EndOf(lines, base, s.m1), m2 := EndOf(lines, base, s.m2))]
              && (m1done <==> Met(lines, s.m1)) && (m2done <==> Met(lines, s.m2))
    {
      ghost var s := springs[j];
      m1done, m2done := false, false;
      NotMetYet(lines, base, s.m1);
      NotMetYet(lines, base, s.m2);
      hide Position, Met, EndOf, Resolved;
      var k := 0;
      while (!m1done || !m2done) && k < |mapfrom|
        invariant 0 <= k <= |mapfrom| && |springs| == |old(springs)|
        invariant springs == old(springs)[j := s.(m1 := springs[j].m1, m2 := springs[j].m2)]
        invariant Resolved(lines, base, s.m1, springs[j].m1, m1done, k)
        invariant Resolved(lines, base, s.m2, springs[j].m2, m2done, k)
      {
        ResolvedStep(lines, base, s.m1, springs[j].m1, m1done, k);
        ResolvedStep(lines, base, s.m2, springs[j].m2, m2done, k);
        if !m1done && springs[j].m1 == mapfrom[k] {
          springs := springs[j := springs[j].(m1 := mapto[k])];
          m1done := true;
        }
        if !m2done && springs[j].m2 == mapfrom[k] {
          springs := springs[j := springs[j].(m2 := mapto[k])];
          m2done := true;
        }
        k := k + 1;
      }
      EndsRenamed(lines, base, s, springs[j], m1done, m2done, k);
    }

    /** Renames the ends; a spring that found neither of its masses is deleted. */
    method Resolve(j: nat, mapfrom: seq<nat>, mapto: seq<nat>, ghost lines: seq<Record>, ghost base: nat,
                   ghost r: Record, ghost selected: bool)
      requires j < |springs| && AllMasses(lines) && MapsTo(lines, base, mapfrom, mapto)
      requires r.SpngRec? && springs[j] == RawSpring(r, selected)
      requires EndOf(lines, base, r.m1) < |masses| && EndOf(lines, base, r.m2) < |masses|
      requires forall i :: 0 <= i < |masses| ==> NotListed(masses[i], j)
      modifies this`masses, this`springs
      ensures masses == old(masses) && springs == old(springs)[j := ReadSpring(lines, base, r, selected)]
    {
      hide EndOf, Met, MapsTo, NotListed;
      var m1done, m2done := RenameEnds(j, mapfrom, mapto, lines, base);
      if !m1done && !m2done {
        DeleteSpring(j);
      }
    }

    /** Before the lines: loading empties the system; inserting selects the new objects when
        nothing is selected. */
    method StartLoad(insert: bool) returns (selectnew: bool)
      requires Valid()
      modifies this`masses, this`springs, this`centre
      ensures Valid()
      ensures insert ==> masses == old(masses) && springs == old(springs) && centre == old(centre)
      ensures insert ==> (selectnew <==> NothingSelected(masses, springs))
      ensures !insert ==> !selectnew && masses == EMPTY_MASSES && springs == EMPTY_SPRINGS && centre == -1
    {
      selectnew := false;
      if !insert {
        masses, springs, centre := [], [], -1;
        InitObjects();
      } else {
        var any := AnythingSelected();
        selectnew := !any;
      }
    }

    /** F_LOAD, or F_INSERT when `insert`.  A spring may name masses the file does not define;
        when such a raw number is beyond the masses there are, the original goes wild, and
        nothing is said of what it leaves. */
    method LoadFile(radius: Radius, f: seq<Record>, insert: bool) returns (selectnew: bool, wild: bool)
      requires Valid()
      modifies this`masses, this`springs, this`centre, this`prefs
      ensures selectnew <==> insert && NothingSelected(old(masses), old(springs))
      ensures wild <==> !InBounds(f, |Start(insert, old(masses))|)
      ensures !wild ==>
                && Loaded(radius, f, selectnew, Start(insert, old(masses)), StartSprings(insert, old(springs)),
                          masses, springs)
                && SettingsRead(f, insert, if insert then old(centre) else -1, old(prefs), centre, prefs)
                && (Valid() <==> Usable(f, Start(insert, old(masses))))
    {
      selectnew := StartLoad(insert);
      wild := !InBounds(f, |masses|);
      if !wild {
        hide Valid, InBounds, Loaded, Usable, NothingSelected, SettingsRead;
        AddFile(radius, f, selectnew, insert);
      }
    }

    /** Everything after the start: read, resolve, reconnect. */
    method AddFile(radius: Radius, f: seq<Record>, selectnew: bool, insert: bool)
      requires Valid() && InBounds(f, |masses|)
      modifies this`masses, this`springs, this`centre, this`prefs
      ensures Loaded(radius, f, selectnew, old(masses), old(springs), masses, springs)
      ensures SettingsRead(f, insert, old(centre), old(prefs), centre, prefs)
      ensures Valid() <==> Usable(f, old(masses))
    {
      ghost var ms, ss := masses, springs;
      var springStart := |springs|;
      SoundParts(ms, ss);
      hide Valid, Sound, InBounds, Loaded, Usable, Added, Renumbered, MapsTo, SettingsRead, ListsInRange,
        Shaped, Closed;
      var mapfrom, mapto := ReadLines(radius, f, selectnew, insert);
      ResolveAll(radius, springStart, mapfrom, mapto, f, selectnew, ms, ss);
      FinishLoad(radius, f, selectnew, ms, ss);
    }

    /** Resolves the springs just read, from springStart on. */
    method ResolveAll(radius: Radius, springStart: nat, mapfrom: seq<nat>, mapto: seq<nat>,
                      ghost f: seq<Record>, ghost selected: bool, ghost ms: seq<Mass>, ghost ss: seq<Spring>)
      requires InBounds(f, |ms|) && MapsTo(MassesIn(f), |ms|, mapfrom, mapto) && ListsInRange(ms, ss)
      requires 0 < springStart == |ss| && Added(radius, f, selected, ms, ss, masses, springs)
      modifies this`masses, this`springs
      ensures Renumbered(radius, f, selected, ms, ss, masses, springs)
    {
      ghost var before, raw := masses, springs;
      NewSpringsUnlisted(radius, f, selected, ms, ss, masses, springs);
      RawSprings(radius, f, selected, ms, ss, masses, springs);
      NothingResolved(f, selected, |ms|, |ss|, raw);
      hide MapsTo, ReadSpring, EndOf, Met, RawSpring, Added, InBounds, NotListed, MassesIn, SpringsIn, ListsInRange;
      for j := springStart to |springs|
        invariant masses == before && ResolvedUpTo(f, selected, |ms|, springStart, raw, springs, j)
      {
        if j != FAKE {
          ResolvedNext(f, selected, |ms|, springStart, raw, springs, j);
          hide ResolvedUpTo;
          Resolve(j, mapfrom, mapto, MassesIn(f), |ms|, SpringsIn(f)[j - springStart], selected);
        }
      }
      AddedIsRenumbered(radius, f, selected, ms, ss, masses, raw, springs);
    }

    /** Rebuilds every list after a load. */
    method FinishLoad(radius: Radius, ghost f: seq<Record>, ghost selected: bool, ghost ms: seq<Mass>,
                      ghost ss: seq<Spring>)
      requires Shaped(ms, ss) && Closed(ms, ss) && InBounds(f, |ms|)
      requires Renumbered(radius, f, selected, ms, ss, masses, springs)
      modifies this`masses
      ensures Loaded(radius, f, selected, ms, ss, masses, springs)
      ensures Valid() <==> Usable(f, ms)
    {
      RenumberedFits(radius, f, selected, ms, ss, masses, springs);
      ghost var before := masses;
      ReconnectMasses();
      RebuiltIsLoaded(radius, f, selected, ms, ss, before, masses, springs);
      hide Loaded, Usable, Shaped, Closed, Renumbered;
      LoadedSoundExactly(radius, f, selected, ms, ss, masses, springs);
    }
  }

  // ---------------------------------------------------------------------------
  // Loading, step by step
  // ---------------------------------------------------------------------------

  lemma {:induction false} SoundParts(ms: seq<Mass>, ss: seq<Spring>)
    requires Sound(ms, ss)
    ensures Shaped(ms, ss) && Closed(ms, ss) && ListsInRange(ms, ss) && 0 < |ss|
  {
  }

  /** The ends when the search is over: both found, or the whole map seen. */
  lemma {:induction false} EndsRenamed(lines: seq<Record>, base: nat, s: Spring, s': Spring, m1done: bool,
                                       m2done: bool, k: nat)
    requires AllMasses(lines) && ((m1done && m2done) || k == |lines|)
    requires Resolved(lines, base, s.m1, s'.m1, m1done, k) && Resolved(lines, base, s.m2, s'.m2, m2done, k)
    ensures s'.m1 == EndOf(lines, base, s.m1) && (m1done <==> Met(lines, s.m1))
    ensures s'.m2 == EndOf(lines, base, s.m2) && (m2done <==> Met(lines, s.m2))
  {
    if k == |lines| {
      ResolvedEnds(lines, base, s.m1, s'.m1, m1done);
      ResolvedEnds(lines, base, s.m2, s'.m2, m2done);
    } else {
      ResolvedDone(lines, base, s.m1, s'.m1, k);
      ResolvedDone(lines, base, s.m2, s'.m2, k);
    }
    hide Resolved, EndOf, Met;
  }

  lemma {:induction false} NewSpringsUnlisted(radius: Radius, f: seq<Record>, selected: bool,
                                              ms: seq<Mass>, ss: seq<Spring>, ms': seq<Mass>, ss': seq<Spring>)
    requires ListsInRange(ms, ss) && Added(radius, f, selected, ms, ss, ms', ss')
    ensures forall i, j :: 0 <= i < |ms'| && |ss| <= j < |ss'| ==> NotListed(ms'[i], j)
  {
    hide MassesIn, SpringsIn;
  }

  lemma {:induction false} RawSprings(radius: Radius, f: seq<Record>, selected: bool,
                                      ms: seq<Mass>, ss: seq<Spring>, ms': seq<Mass>, ss': seq<Spring>)
    requires Added(radius, f, selected, ms, ss, ms', ss') && InBounds(f, |ms|)
    ensures |ss'| == |ss| + |SpringsIn(f)|
    ensures forall j :: |ss| <= j < |ss'| ==>
              var r := SpringsIn(f)[j - |ss|];
              && ss'[j] == RawSpring(r, selected)
              && EndOf(MassesIn(f), |ms|, r.m1) < |ms'| && EndOf(MassesIn(f), |ms|, r.m2) < |ms'|
  {
    hide MassesIn, SpringsIn, EndOf, ReadMass;
    forall j | |ss| <= j < |ss'|
      ensures ss'[j] == RawSpring(SpringsIn(f)[j - |ss|], selected) && SpringsIn(f)[j - |ss|] in SpringsIn(f)
    {
    }
  }

  /** The springs from `start` up to j have been resolved. */
  ghost predicate ResolvedUpTo(f: seq<Record>, selected: bool, base: nat, start: nat,
                               raw: seq<Spring>, ss: seq<Spring>, j: nat) {
    && |ss| == |raw| == start + |SpringsIn(f)|
    && forall k :: 0 <= k < |raw| ==>
         ss[k] ==
           if start <= k < j then ReadSpring(MassesIn(f), base, SpringsIn(f)[k - start], selected) else raw[k]
  }

  lemma {:induction false} NothingResolved(f: seq<Record>, selected: bool, base: nat, start: nat, raw: seq<Spring>)
    requires |raw| == start + |SpringsIn(f)|
    ensures ResolvedUpTo(f, selected, base, start, raw, raw, start)
  {
    hide MassesIn, SpringsIn, ReadSpring;
  }

  lemma {:induction false} ResolvedNext(f: seq<Record>, selected: bool, base: nat, start: nat,
                                        raw: seq<Spring>, ss: seq<Spring>, j: nat)
    requires ResolvedUpTo(f, selected, base, start, raw, ss, j) && start <= j < |raw|
    ensures |ss| == |raw| == start + |SpringsIn(f)| && ss[j] == raw[j]
    ensures var s := ReadSpring(MassesIn(f), base, SpringsIn(f)[j - start], selected);
            ResolvedUpTo(f, selected, base, start, raw, ss[j := s], j + 1)
  {
    hide MassesIn, SpringsIn, ReadSpring;
  }

  lemma {:induction false} AddedIsRenumbered(radius: Radius, f: seq<Record>, selected: bool, ms: seq<Mass>,
                                             ss: seq<Spring>,
                                             ms': seq<Mass>, raw: seq<Spring>, ss': seq<Spring>)
    requires Added(radius, f, selected, ms, ss, ms', raw)
    requires ResolvedUpTo(f, selected, |ms|, |ss|, raw, ss', |raw|)
    ensures Renumbered(radius, f, selected, ms, ss, ms', ss')
  {
    hide MassesIn, SpringsIn, ReadSpring, ReadMass;
  }

  lemma {:induction false} RenumberedFits(radius: Radius, f: seq<Record>, selected: bool,
                                          ms: seq<Mass>, ss: seq<Spring>, ms': seq<Mass>, ss': seq<Spring>)
    requires Shaped(ms, ss) && InBounds(f, |ms|) && Renumbered(radius, f, selected, ms, ss, ms', ss')
    ensures EndsFit(ms', ss')
  {
    hide MassesIn, SpringsIn, EndOf, Met, ReadMass;
    forall j | |ss| <= j < |ss'| ensures ss'[j].m1 < |ms'| && ss'[j].m2 < |ms'| {
      assert SpringsIn(f)[j - |ss|] in SpringsIn(f);
    }
  }

  lemma {:induction false} RebuiltIsLoaded(radius: Radius, f: seq<Record>, selected: bool, ms: seq<Mass>,
                                           ss: seq<Spring>,
                                           before: seq<Mass>, ms': seq<Mass>, ss': seq<Spring>)
    requires Renumbered(radius, f, selected, ms, ss, before, ss') && ListsRebuilt(ms', ss') && |ms'| == |before|
    requires forall i :: 0 <= i < |before| ==> ms'[i] == before[i].(pars := ms'[i].pars)
    ensures Loaded(radius, f, selected, ms, ss, ms', ss')
  {
    hide MassesIn, SpringsIn, ReadMass, ReadSpring, ListsRebuilt;
    assert ss'[..|ss|] == ss;
  }

  lemma {:induction false} SoundMeansFit(ms: seq<Mass>, ss: seq<Spring>)
    requires Sound(ms, ss)
    ensures EndsFit(ms, ss)
  {
  }

  /** The lists of springs apart, nothing differs. */
  ghost predicate SameObjects(ms: seq<Mass>, ms': seq<Mass>) {
    |ms'| == |ms| && forall i :: 0 <= i < |ms| ==> ms'[i] == ms[i].(pars := ms'[i].pars)
  }

  predicate Joinable(ms: seq<Mass>, m1: nat, m2: nat) {
    m1 < |ms| && m2 < |ms| && ms[m1].status.alive && ms[m2].status.alive
  }

  /** What an edit makes of memory a; the lists of springs are left to the invariant. */
  ghost predicate Effect(edit: Edit, a: Memory, b: Memory) {
    var ms, ss, ms', ss' := a.now.masses, a.now.springs, b.now.masses, b.now.springs;
    && (edit.Load? || b.now.prefs == a.now.prefs)
    && (edit.Remember? || b.saved == a.saved)
    && match edit
       case NewMass(shape, fixed) =>
         && ms' == ms + [Mass(shape, [], Status(true, false, fixed, false))]
         && ss' == ss && b.now.centre == a.now.centre
       case NewSpring(m1, m2, ks, kd, len) =>
         && b.now.centre == a.now.centre
         && if Joinable(ms, m1, m2) then SameObjects(ms, ms') && ss' == ss + [Spring(m1, m2, ks, kd, len, LIVE)]
            else b == a
       case PickMass(i, shifted) =>
         b == if i < |ms| && ms[i].status.alive then a.(now := a.now.(masses := ms[i := MassPicked(ms[i], shifted)]))
              else a
       case PickSpring(j, shifted) =>
         b == if j < |ss| && ss[j].status.alive then a.(now := a.now.(springs := ss[j := SpringPicked(ss[j], shifted)]))
              else a
       case DropMass(i) =>
         && b.now.centre == (if i < |ms| && i == a.now.centre then -1 else a.now.centre)
         && if i < |ms| && ms[i].status.alive then MassDeleted(ms, ss, ms', ss', i) else ms' == ms && ss' == ss
       case DropSpring(j) =>
         && b.now.centre == a.now.centre
         && if j < |ss| && ss[j].status.alive then ss' == ss[j := Killed(ss[j])] && SpringUnlisted(ms, ms', ss[j], j)
            else b == a
       case DropSelection =>
         && SelectionDeleted(ms, ss, ms', ss')
         && b.now.centre == if 0 <= a.now.centre < |ms| && ms[a.now.centre].status.selected then -1 else a.now.centre
       case CopySelection =>
         && b.now.centre == a.now.centre && EndsFit(ms, ss)
         && MassesCopied(ms, ms') && SpringsCopied(ms, ss, ss')
       case Remember => b == a.(saved := Some(Snapshot(ms, ss)))
       case Recall =>
         (match a.saved
          case None => b == a
          case Some(snapshot) => b.now.centre == -1 && ss' == snapshot.springs && SameObjects(snapshot.masses, ms'))
       case Load(radius, file, insert) =>
         && Loaded(radius, file, insert && NothingSelected(ms, ss), Start(insert, ms), StartSprings(insert, ss),
                   ms', ss')
         && SettingsRead(file, insert, if insert then a.now.centre else -1, a.now.prefs, b.now.centre, b.now.prefs)
  }

  /** A click selects; with shift it toggles. */
  function MassPicked(m: Mass, shifted: bool): Mass {
    m.(status := m.status.(selected := !shifted || !m.status.selected))
  }

  function SpringPicked(s: Spring, shifted: bool): Spring {
    s.(status := s.status.(selected := !shifted || !s.status.selected))
  }

  /** The edits that break a sound graph, as a caller could see beforehand. */
  ghost predicate Breaks(edit: Edit, ms: seq<Mass>, ss: seq<Spring>) {
    match edit
    case CopySelection => EndsFit(ms, ss) && !NoneHalfSelected(ms, ss)
    case Load(_, file, insert) => !Usable(file, Start(insert, ms))
    case _ => false
  }

  /** What a load starts from. */
  function Start(insert: bool, ms: seq<Mass>): seq<Mass> {
    if insert then ms else EMPTY_MASSES
  }

  function StartSprings(insert: bool, ss: seq<Spring>): seq<Spring> {
    if insert then ss else EMPTY_SPRINGS
  }

  ghost predicate NothingSelected(ms: seq<Mass>, ss: seq<Spring>) {
    && (forall i :: 0 <= i < |ms| ==> !ms[i].status.selected)
    && (forall j :: 0 <= j < |ss| ==> !ss[j].status.selected)
  }

  const EMPTY_MASSES := [Mass(Shape(0.0, 0.0, 0.0, 0.0, 0.0, 0.0, 0), [FAKE], Status(false, false, true, false))]
  const EMPTY_SPRINGS := [Spring(FAKE, 0, 0.0, 0.0, 0.0, DEAD)]

  datatype Edit =
    | NewMass(shape: Shape, fixed: bool)
    | NewSpring(m1: nat, m2: nat, ks: real, kd: real, restlen: real)
    | PickMass(i: nat, shifted: bool)
    | PickSpring(j: nat, shifted: bool)
    | DropMass(m: nat)
    | DropSpring(s: nat)
    | DropSelection
    | CopySelection
    | Remember
    | Recall
    | Load(radius: Radius, file: seq<Record>, insert: bool)

  /** Everything an edit can change. */
  datatype Memory = Memory(now: System, saved: Option<Snapshot>)

  datatype Snapshot = Snapshot(masses: seq<Mass>, springs: seq<Spring>)

  predicate NotListed(m: Mass, p: nat) {
    m.status.alive ==> p !in m.pars
  }

}
