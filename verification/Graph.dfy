/**
 The spring graph of the editor: masses and springs in arrays whose slots are never
 reused (a deleted object keeps its slot), and for each mass the list of springs ending
 at it, one entry per end.  Slot 0 of each array is the fake object used while dragging.
 */
module Graph {

  /** The status bits of an object. */
  datatype Status = Status(alive: bool, selected: bool, fixed: bool, tempfixed: bool)

  const DEAD := Status(false, false, false, false)
  const LIVE := Status(true, false, false, false)
  const FAKE: nat := 0

  datatype Shape = Shape(x: real, y: real, vx: real, vy: real, mass: real, elastic: real, radius: int)

  datatype Mass = Mass(shape: Shape, pars: seq<nat>, status: Status)

  datatype Spring = Spring(m1: nat, m2: nat, ks: real, kd: real, restlen: real, status: Status)

  /** How many ends of the spring are at mass i. */
  function Ends(s: Spring, i: nat): nat {
    (if s.m1 == i then 1 else 0) + (if s.m2 == i then 1 else 0)
  }

  predicate Touches(s: Spring, i: nat) {
    s.m1 == i || s.m2 == i
  }

  function Occurs(s: seq<nat>, j: nat): nat {
    multiset(s)[j]
  }

  /** How often a mass lists spring j. */
  function Listed(m: Mass, j: nat): nat {
    Occurs(m.pars, j)
  }

  // ---------------------------------------------------------------------------
  // The invariant
  // ---------------------------------------------------------------------------

  /** Every end names a slot. */
  ghost predicate EndsFit(ms: seq<Mass>, ss: seq<Spring>) {
    forall j :: 0 <= j < |ss| ==> ss[j].m1 < |ms| && ss[j].m2 < |ms|
  }

  /** Every index is in range, the fakes are there, and only living objects are selected. */
  ghost predicate Shaped(ms: seq<Mass>, ss: seq<Spring>) {
    && 0 < |ms| && 0 < |ss| && !ms[FAKE].status.alive
    && EndsFit(ms, ss)
    && (forall i :: 0 <= i < |ms| && ms[i].status.selected ==> ms[i].status.alive)
    && (forall j :: 0 <= j < |ss| && ss[j].status.selected ==> ss[j].status.alive)
  }

  /** The living masses list only springs that exist. */
  ghost predicate ListsInRange(ms: seq<Mass>, ss: seq<Spring>) {
    forall i, p :: 0 <= i < |ms| && ms[i].status.alive && p in ms[i].pars ==> p < |ss|
  }

  /** Every living mass lists every living real spring once per end. */
  ghost predicate Registered(ms: seq<Mass>, ss: seq<Spring>) {
    forall i, j :: 0 <= i < |ms| && ms[i].status.alive && 0 < j < |ss| && ss[j].status.alive ==>
      Listed(ms[i], j) == Ends(ss[j], i)
  }

  /** No living real spring ends at a dead mass. */
  ghost predicate Closed(ms: seq<Mass>, ss: seq<Spring>) {
    forall j :: 0 < j < |ss| && ss[j].status.alive && ss[j].m1 < |ms| && ss[j].m2 < |ms| ==>
      ms[ss[j].m1].status.alive && ms[ss[j].m2].status.alive
  }

  ghost predicate Sound(ms: seq<Mass>, ss: seq<Spring>) {
    Shaped(ms, ss) && ListsInRange(ms, ss) && Registered(ms, ss) && Closed(ms, ss)
  }

  /** What it is for: an alive real spring is in the lists of both its ends, which are alive. */
  lemma {:induction false} SoundMeansListed(ms: seq<Mass>, ss: seq<Spring>, j: nat)
    requires Sound(ms, ss) && 0 < j < |ss| && ss[j].status.alive
    ensures ms[ss[j].m1].status.alive && j in ms[ss[j].m1].pars
    ensures ms[ss[j].m2].status.alive && j in ms[ss[j].m2].pars
    ensures forall i :: 0 <= i < |ms| && ms[i].status.alive && j in ms[i].pars ==> Touches(ss[j], i)
  {
    assert Listed(ms[ss[j].m1], j) > 0 && Listed(ms[ss[j].m2], j) > 0;
    forall i | 0 <= i < |ms| && ms[i].status.alive && j in ms[i].pars ensures Touches(ss[j], i) {
      assert Listed(ms[i], j) > 0;
    }
  }

  // ---------------------------------------------------------------------------
  // Lists
  // ---------------------------------------------------------------------------

  /** A list after its entry k is overwritten by the last entry, which is dropped. */
  function DropEntry(s: seq<nat>, k: nat): seq<nat>
    requires k < |s|
  {
    s[k := s[|s| - 1]][..|s| - 1]
  }

  lemma {:induction false} DropEntryCounts(s: seq<nat>, k: nat)
    requires k < |s|
    ensures multiset(DropEntry(s, k)) == multiset(s) - multiset{s[k]}
    ensures forall i :: 0 <= i < |s| - 1 ==> DropEntry(s, k)[i] in s
  {
    var t := s[k := s[|s| - 1]];
    var last := s[|s| - 1];
    assert t == DropEntry(s, k) + [last];
    assert multiset(t) == multiset(DropEntry(s, k)) + multiset{last};
    assert multiset(t) == multiset(s) - multiset{s[k]} + multiset{last};
    forall p ensures multiset(DropEntry(s, k))[p] == (multiset(s) - multiset{s[k]})[p] {
      assert multiset(t)[p] == multiset(DropEntry(s, k))[p] + multiset{last}[p];
    }
  }

  /** Only the lists may differ, and dead masses' lists do not. */
  ghost predicate OnlyLists(before: seq<Mass>, after: seq<Mass>) {
    && |before| == |after|
    && forall i :: 0 <= i < |before| ==>
         && after[i] == before[i].(pars := after[i].pars)
         && (!before[i].status.alive ==> after[i] == before[i])
  }

  /** The list of m' is that of m with n entries p fewer, or all of them. */
  ghost predicate Unlisted(m: Mass, m': Mass, p: nat, n: nat) {
    && Listed(m', p) == (if Listed(m, p) > n then Listed(m, p) - n else 0)
    && forall q :: q != p ==> Listed(m', q) == Listed(m, q)
  }

  /** The deletion of spring p, seen by the masses. */
  ghost predicate SpringUnlisted(before: seq<Mass>, after: seq<Mass>, s: Spring, p: nat) {
    && OnlyLists(before, after)
    && forall i :: 0 <= i < |before| && before[i].status.alive ==> Unlisted(before[i], after[i], p, Ends(s, i))
  }

  function Killed(s: Spring): Spring {
    s.(status := DEAD)
  }

  // ---------------------------------------------------------------------------
  // Deleting a mass, spring by spring
  // ---------------------------------------------------------------------------

  /** Sound, but for living springs at the dead mass w, all of them among `rest`. */
  ghost predicate SoundBut(ms: seq<Mass>, ss: seq<Spring>, w: nat, rest: seq<nat>) {
    && Shaped(ms, ss) && ListsInRange(ms, ss) && Registered(ms, ss)
    && w < |ms| && !ms[w].status.alive
    && (forall p :: p in rest ==> p < |ss|)
    && forall j :: 0 < j < |ss| && ss[j].status.alive ==>
         && (ms[ss[j].m1].status.alive || ss[j].m1 == w)
         && (ms[ss[j].m2].status.alive || ss[j].m2 == w)
         && (Touches(ss[j], w) ==> j in rest)
  }

  lemma {:induction false} MassKilled(ms: seq<Mass>, ss: seq<Spring>, w: nat)
    requires Sound(ms, ss) && w < |ms| && ms[w].status.alive
    ensures SoundBut(ms[w := ms[w].(status := DEAD)], ss, w, ms[w].pars)
  {
    forall j | 0 < j < |ss| && ss[j].status.alive && Touches(ss[j], w) ensures j in ms[w].pars {
      assert Listed(ms[w], j) == Ends(ss[j], w);
    }
  }

  lemma {:induction false} SpringKilled(ms: seq<Mass>, ss: seq<Spring>, ms': seq<Mass>, w: nat, rest: seq<nat>, p: nat)
    requires |rest| > 0 && SoundBut(ms, ss, w, rest) && p == rest[0] && p < |ss|
    requires if ss[p].status.alive then SpringUnlisted(ms, ms', ss[p], p) else ms' == ms
    ensures SoundBut(ms', if ss[p].status.alive then ss[p := Killed(ss[p])] else ss, w, rest[1..])
  {
    assert rest == [p] + rest[1..];
    var ss' := if ss[p].status.alive then ss[p := Killed(ss[p])] else ss;
    if ss[p].status.alive {
      UnlistKeepsRange(ms, ss, ms', p);
    }
    assert Shaped(ms', ss');
    forall j | 0 < j < |ss'| && ss'[j].status.alive && Touches(ss'[j], w) ensures j in rest[1..] {
      assert j in rest && j != p;
    }
    forall q | q in rest[1..] ensures q < |ss'| {
      assert q in rest;
    }
  }

  lemma {:induction false} UnlistKeepsRange(ms: seq<Mass>, ss: seq<Spring>, ms': seq<Mass>, p: nat)
    requires p < |ss| && ListsInRange(ms, ss) && Registered(ms, ss) && SpringUnlisted(ms, ms', ss[p], p)
    ensures ListsInRange(ms', ss[p := Killed(ss[p])]) && Registered(ms', ss[p := Killed(ss[p])])
  {
    forall i, q | 0 <= i < |ms'| && ms'[i].status.alive && q in ms'[i].pars ensures q < |ss| {
      assert ms[i].status.alive;
      assert Listed(ms'[i], q) > 0;
      assert Unlisted(ms[i], ms'[i], p, Ends(ss[p], i));
      if q != p {
        assert Listed(ms[i], q) > 0;
        assert q in multiset(ms[i].pars);
        assert q in ms[i].pars;
      }
    }
  }

  /** Mass w is dead, so are the springs at it, and nothing else changed but lists. */
  ghost predicate MassDeleted(ms: seq<Mass>, ss: seq<Spring>, ms': seq<Mass>, ss': seq<Spring>, w: nat) {
    && |ms'| == |ms| && |ss'| == |ss| > 0 && w < |ms| && FakeAfter(ss[FAKE], ss'[FAKE])
    && (forall i :: 0 <= i < |ms| ==>
          ms'[i] == ms[i].(pars := ms'[i].pars, status := if i == w then DEAD else ms[i].status))
    && (forall j :: 0 < j < |ss| ==> ss'[j] == if ss[j].status.alive && Touches(ss[j], w) then Killed(ss[j]) else ss[j])
  }

  /** The deletion of mass w, after its first k list entries. */
  ghost predicate Deleting(ms: seq<Mass>, ss: seq<Spring>, ms': seq<Mass>, ss': seq<Spring>, w: nat, k: nat) {
    && w < |ms| && k <= |ms[w].pars|
    && SoundBut(ms', ss', w, ms[w].pars[k..])
    && OnlyLists(ms[w := ms[w].(status := DEAD)], ms')
    && |ss'| == |ss|
    && forall j :: 0 <= j < |ss| ==>
         ss'[j] == if ss[j].status.alive && j in ms[w].pars[..k] then Killed(ss[j]) else ss[j]
  }

  lemma {:induction false} InRange(ms: seq<Mass>, ss: seq<Spring>, ms': seq<Mass>, ss': seq<Spring>, w: nat, k: nat)
    requires Deleting(ms, ss, ms', ss', w, k) && k < |ms[w].pars|
    ensures var p := ms[w].pars[k];
            p < |ss'| && ss'[p].m1 < |ms'| && ss'[p].m2 < |ms'|
  {
    assert ms[w].pars[k] == ms[w].pars[k..][0];
    assert ms[w].pars[k] in ms[w].pars[k..];
  }

  lemma {:induction false} DeletingStep(ms: seq<Mass>, ss: seq<Spring>, ms1: seq<Mass>, ss1: seq<Spring>,
                                        ms2: seq<Mass>, w: nat, k: nat, p: nat)
    requires Deleting(ms, ss, ms1, ss1, w, k) && k < |ms[w].pars| && p == ms[w].pars[k] && p < |ss1|
    requires if ss1[p].status.alive then SpringUnlisted(ms1, ms2, ss1[p], p) else ms2 == ms1
    ensures Deleting(ms, ss, ms2, if ss1[p].status.alive then ss1[p := Killed(ss1[p])] else ss1, w, k + 1)
  {
    var list := ms[w].pars;
    assert list[k..][0] == p && list[k..][1..] == list[k + 1..] && list[..k + 1] == list[..k] + [p];
    SpringKilled(ms1, ss1, ms2, w, list[k..], p);
    hide SoundBut, Unlisted;
  }

  lemma {:induction false} DeletingEnds(ms: seq<Mass>, ss: seq<Spring>, ms': seq<Mass>, ss': seq<Spring>, w: nat)
    requires Sound(ms, ss) && w < |ms| && ms[w].status.alive && Deleting(ms, ss, ms', ss', w, |ms[w].pars|)
    ensures Sound(ms', ss') && MassDeleted(ms, ss, ms', ss', w)
  {
    var list := ms[w].pars;
    assert list[..|list|] == list && list[|list|..] == [];
    forall j | 0 < j < |ss| && ss[j].status.alive ensures j in list <==> Touches(ss[j], w) {
      assert Listed(ms[w], j) == Ends(ss[j], w);
    }
  }

  // ---------------------------------------------------------------------------
  // Deleting the selection
  // ---------------------------------------------------------------------------

  predicate SelectedBelow(ms: seq<Mass>, i: nat, k: nat) {
    i < k && i < |ms| && ms[i].status.selected
  }

  /** Lists apart, the masses are as before except that the selected ones below k are dead. */
  ghost predicate MassesAfter(ms: seq<Mass>, ms': seq<Mass>, k: nat) {
    && |ms'| == |ms|
    && forall i :: 0 <= i < |ms| ==>
         ms'[i] == ms[i].(pars := ms'[i].pars, status := if SelectedBelow(ms, i, k) then DEAD else ms[i].status)
  }

  /** The fake spring may have been let go by the way. */
  predicate FakeAfter(s: Spring, s': Spring) {
    s' == s || s' == Killed(s)
  }

  /** The selected masses below k are dead, so are the springs at them. */
  ghost predicate MassesGone(ms: seq<Mass>, ss: seq<Spring>, ms': seq<Mass>, ss': seq<Spring>, k: nat) {
    && MassesAfter(ms, ms', k) && |ss'| == |ss| > 0 && FakeAfter(ss[FAKE], ss'[FAKE])
    && forall j :: 0 < j < |ss| ==>
         ss'[j] == if ss[j].status.alive && (SelectedBelow(ms, ss[j].m1, k) || SelectedBelow(ms, ss[j].m2, k))
                   then Killed(ss[j]) else ss[j]
  }

  /** Exactly the selected objects, and the springs at a selected mass, are dead. */
  ghost predicate SelectionDeleted(ms: seq<Mass>, ss: seq<Spring>, ms': seq<Mass>, ss': seq<Spring>) {
    && MassesAfter(ms, ms', |ms|) && |ss'| == |ss| > 0 && FakeAfter(ss[FAKE], ss'[FAKE])
    && forall j :: 0 < j < |ss| ==>
         ss'[j] == if ss[j].status.alive && (ss[j].status.selected || SelectedBelow(ms, ss[j].m1, |ms|)
                                             || SelectedBelow(ms, ss[j].m2, |ms|))
                   then Killed(ss[j]) else ss[j]
  }

  lemma {:induction false} OneMassGone(ms: seq<Mass>, ss: seq<Spring>, ms1: seq<Mass>, ss1: seq<Spring>,
                    ms2: seq<Mass>, ss2: seq<Spring>, k: nat)
    requires k < |ms| && ms[k].status.selected && MassesGone(ms, ss, ms1, ss1, k)
    requires MassDeleted(ms1, ss1, ms2, ss2, k)
    ensures MassesGone(ms, ss, ms2, ss2, k + 1)
  {
  }

  lemma {:induction false} NextMass(ms: seq<Mass>, ss: seq<Spring>, ms1: seq<Mass>, ss1: seq<Spring>, k: nat)
    requires k < |ms| && MassesGone(ms, ss, ms1, ss1, k)
    ensures ms1[k].status == ms[k].status
  {
  }

  lemma {:induction false} NoMassGone(ms: seq<Mass>, ss: seq<Spring>, ms1: seq<Mass>, ss1: seq<Spring>, k: nat)
    requires k < |ms| && !ms[k].status.selected && MassesGone(ms, ss, ms1, ss1, k)
    ensures MassesGone(ms, ss, ms1, ss1, k + 1)
  {
    assert forall i :: SelectedBelow(ms, i, k + 1) <==> SelectedBelow(ms, i, k);
  }

  /** As above, and the selected springs below k are dead too. */
  ghost predicate SpringsGone(ms: seq<Mass>, ss: seq<Spring>, ms': seq<Mass>, ss': seq<Spring>, k: nat) {
    && MassesAfter(ms, ms', |ms|) && |ss'| == |ss| > 0 && FakeAfter(ss[FAKE], ss'[FAKE])
    && forall j :: 0 < j < |ss| ==>
         ss'[j] == if ss[j].status.alive && ((j < k && ss[j].status.selected) || SelectedBelow(ms, ss[j].m1, |ms|)
                                             || SelectedBelow(ms, ss[j].m2, |ms|))
                   then Killed(ss[j]) else ss[j]
  }

  lemma {:induction false} OneSpringGone(ms: seq<Mass>, ss: seq<Spring>, ms1: seq<Mass>, ss1: seq<Spring>,
                                         ms2: seq<Mass>, k: nat)
    requires Shaped(ms, ss) && SpringsGone(ms, ss, ms1, ss1, k) && k < |ss|
    requires ss1[k].status.selected && ss1[k].status.alive && OnlyLists(ms1, ms2)
    ensures SpringsGone(ms, ss, ms2, ss1[k := Killed(ss1[k])], k + 1)
  {
  }

  lemma {:induction false} SpringDeletionIsSound(ms: seq<Mass>, ss: seq<Spring>, ms': seq<Mass>, p: nat)
    requires Sound(ms, ss) && p < |ss| && SpringUnlisted(ms, ms', ss[p], p)
    ensures Sound(ms', ss[p := Killed(ss[p])])
  {
    UnlistKeepsRange(ms, ss, ms', p);
    hide Listed, Ends, Unlisted;
    assert forall i :: 0 <= i < |ms| ==> ms'[i].status == ms[i].status;
  }

  // ---------------------------------------------------------------------------
  // Lists rebuilt from the springs
  // ---------------------------------------------------------------------------

  /** Spring j once for each end at mass i. */
  function Entries(s: Spring, j: nat, i: nat): seq<nat> {
    (if s.m1 == i then [j] else []) + (if s.m2 == i then [j] else [])
  }

  /** The list of mass i rebuilt from the first n springs, dead ones included. */
  function Incident(ss: seq<Spring>, i: nat, n: nat): seq<nat>
    requires n <= |ss|
  {
    if n <= 0 then [] else Incident(ss, i, n - 1) + Entries(ss[n - 1], n - 1, i)
  }

  lemma {:induction false} EntriesCount(s: Spring, j: nat, i: nat, p: nat)
    ensures Occurs(Entries(s, j, i), p) == if p == j then Ends(s, i) else 0
  {
    if s.m1 == i && s.m2 == i {
      assert Entries(s, j, i) == [j, j];
    }
  }

  lemma {:induction false} SumCounts(a: seq<nat>, b: seq<nat>, p: nat)
    ensures Occurs(a + b, p) == Occurs(a, p) + Occurs(b, p)
  {
  }

  lemma {:induction false} OccursIn(s: seq<nat>, p: nat)
    ensures p in s <==> Occurs(s, p) > 0
  {
    assert p in s <==> p in multiset(s);
  }

  lemma {:induction false} IncidentCounts(ss: seq<Spring>, i: nat, n: nat, j: nat)
    requires n <= |ss|
    ensures Occurs(Incident(ss, i, n), j) == if j < n then Ends(ss[j], i) else 0
  {
    hide Ends, Entries;
    if n > 0 {
      IncidentCounts(ss, i, n - 1, j);
      EntriesCount(ss[n - 1], n - 1, i, j);
      hide Occurs;
      SumCounts(Incident(ss, i, n - 1), Entries(ss[n - 1], n - 1, i), j);
    }
  }

  ghost predicate ListsRebuilt(ms: seq<Mass>, ss: seq<Spring>) {
    forall i :: 0 <= i < |ms| ==> ms[i].pars == Incident(ss, i, |ss|)
  }

  lemma {:induction false} RebuiltIsRegistered(ms: seq<Mass>, ss: seq<Spring>)
    requires ListsRebuilt(ms, ss)
    ensures ListsInRange(ms, ss) && Registered(ms, ss)
  {
    forall i, j | 0 <= i < |ms| && 0 < j < |ss| ensures Listed(ms[i], j) == Ends(ss[j], i) {
      IncidentCounts(ss, i, |ss|, j);
    }
    forall i, p | 0 <= i < |ms| && ms[i].status.alive && p in ms[i].pars ensures p < |ss| {
      IncidentCounts(ss, i, |ss|, p);
      OccursIn(ms[i].pars, p);
    }
  }

  // ---------------------------------------------------------------------------
  // Adding
  // ---------------------------------------------------------------------------

  lemma {:induction false} AddedMassIsSound(ms: seq<Mass>, ss: seq<Spring>, m: Mass)
    requires Sound(ms, ss) && m.pars == [] && m.status.alive
    ensures Sound(ms + [m], ss)
  {
    assert forall j :: 0 < j < |ss| ==> Listed(m, j) == 0;
  }

  /** One list before and after a spring is registered. */
  lemma {:induction false} RegisteredOnce(m: Mass, s: Spring, p: nat, i: nat, j: nat)
    requires forall q :: q in m.pars ==> q < p
    requires j <= p
    ensures var pars := m.pars + Entries(s, p, i);
            && Occurs(pars, j) == (if j == p then Ends(s, i) else Listed(m, j))
            && (forall q :: q in pars ==> q <= p)
  {
    EntriesCount(s, p, i, j);
    SumCounts(m.pars, Entries(s, p, i), j);
    OccursIn(m.pars, p);
    assert forall q :: q in Entries(s, p, i) ==> q == p;
    hide Ends, Occurs, Entries;
  }

  lemma {:induction false} AddedSpringIsListed(ms: seq<Mass>, ss: seq<Spring>, ms': seq<Mass>, s: Spring)
    requires ListsInRange(ms, ss) && Registered(ms, ss) && |ms'| == |ms|
    requires forall i :: 0 <= i < |ms| ==> ms'[i] == ms[i].(pars := ms[i].pars + Entries(s, |ss|, i))
    ensures ListsInRange(ms', ss + [s]) && Registered(ms', ss + [s])
  {
    hide Ends, Occurs, Entries;
    forall i, j | 0 <= i < |ms| && ms[i].status.alive && 0 < j <= |ss|
      ensures Listed(ms'[i], j) == if j == |ss| then Ends(s, i) else Listed(ms[i], j)
    {
      RegisteredOnce(ms[i], s, |ss|, i, j);
    }
    forall i, p | 0 <= i < |ms'| && ms'[i].status.alive && p in ms'[i].pars ensures p <= |ss| {
      RegisteredOnce(ms[i], s, |ss|, i, |ss|);
    }
  }

  lemma {:induction false} AddedSpringIsSound(ms: seq<Mass>, ss: seq<Spring>, ms': seq<Mass>, s: Spring)
    requires Sound(ms, ss) && s.m1 < |ms| && s.m2 < |ms| && s.status == LIVE
    requires ms[s.m1].status.alive && ms[s.m2].status.alive && |ms'| == |ms|
    requires forall i :: 0 <= i < |ms| ==> ms'[i] == ms[i].(pars := ms[i].pars + Entries(s, |ss|, i))
    ensures Sound(ms', ss + [s])
  {
    AddedSpringIsListed(ms, ss, ms', s);
    hide ListsInRange, Registered, Entries;
    assert Shaped(ms', ss + [s]) && Closed(ms', ss + [s]);
  }

  lemma {:induction false} RebuiltIsSound(ms: seq<Mass>, ss: seq<Spring>, ms': seq<Mass>)
    requires |ms'| == |ms| && ListsRebuilt(ms', ss)
    requires forall i :: 0 <= i < |ms| ==> ms'[i] == ms[i].(pars := ms'[i].pars)
    ensures Sound(ms, ss) ==> Sound(ms', ss)
  {
    RebuiltIsRegistered(ms', ss);
    hide ListsRebuilt, ListsInRange, Registered;
    if Sound(ms, ss) {
      forall i | 0 <= i < |ms| ensures ms'[i].status == ms[i].status {}
    }
  }
}
