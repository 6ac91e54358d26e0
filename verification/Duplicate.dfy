/** What duplicating the selection makes of a spring graph. */
module Duplicate {
  import opened Graph

  /** The selected masses among the first k, in order. */
  function Chosen(ms: seq<Mass>, k: nat): (c: seq<nat>)
    requires k <= |ms|
    ensures |c| <= k
    ensures forall i :: 0 <= i < |c| ==> c[i] < k && ms[c[i]].status.selected
    ensures forall i, j :: 0 <= i < j < |c| ==> c[i] < c[j]
  {
    if k <= 0 then []
    else if ms[k - 1].status.selected then Chosen(ms, k - 1) + [k - 1]
    else Chosen(ms, k - 1)
  }

  lemma {:induction false} ChosenAt(ms: seq<Mass>, k: nat, i: nat)
    requires i < k <= |ms| && ms[i].status.selected
    ensures |Chosen(ms, i)| < |Chosen(ms, k)| && Chosen(ms, k)[|Chosen(ms, i)|] == i
  {
    if i < k - 1 { ChosenAt(ms, k - 1, i); }
  }

  lemma {:induction false} ChosenGrows(ms: seq<Mass>, j: nat, k: nat)
    requires j <= k <= |ms|
    ensures |Chosen(ms, j)| <= |Chosen(ms, k)|
  {
    if j < k { ChosenGrows(ms, j, k - 1); }
  }

  lemma {:induction false} ChosenRank(ms: seq<Mass>, k: nat, c: nat)
    requires k <= |ms| && c < |Chosen(ms, k)|
    ensures |Chosen(ms, Chosen(ms, k)[c])| == c
  {
    ChosenAt(ms, k, Chosen(ms, k)[c]);
  }

  /** The index of the copy of mass m, or m itself when it has none. */
  function Renamed(ms: seq<Mass>, m: nat): nat
    requires m < |ms|
  {
    if ms[m].status.selected then |ms| + |Chosen(ms, m)| else m
  }

  /** The copy of a mass, before any spring is registered with it. */
  function CopyMass(m: Mass): Mass {
    m.(status := m.status.(selected := false), pars := [])
  }

  /** The copies of the selected masses among the first k, in order. */
  function CopiedMasses(ms: seq<Mass>, k: nat): (r: seq<Mass>)
    requires k <= |ms|
    ensures |r| == |Chosen(ms, k)|
    ensures forall c :: 0 <= c < |r| ==> r[c] == CopyMass(ms[Chosen(ms, k)[c]])
  {
    if k <= 0 then []
    else if ms[k - 1].status.selected then CopiedMasses(ms, k - 1) + [CopyMass(ms[k - 1])]
    else CopiedMasses(ms, k - 1)
  }

  lemma {:induction false} ChosenNone(ms: seq<Mass>)
    ensures Chosen(ms, 0) == [] && CopiedMasses(ms, 0) == []
  {
  }

  lemma {:induction false} ChosenStep(ms: seq<Mass>, k: nat)
    requires k < |ms|
    ensures |Chosen(ms, k + 1)| <= |Chosen(ms, |ms|)|
    ensures if ms[k].status.selected then
              Chosen(ms, k + 1) == Chosen(ms, k) + [k]
              && CopiedMasses(ms, k + 1) == CopiedMasses(ms, k) + [CopyMass(ms[k])]
            else
              Chosen(ms, k + 1) == Chosen(ms, k) && CopiedMasses(ms, k + 1) == CopiedMasses(ms, k)
  {
    ChosenGrows(ms, k + 1, |ms|);
  }

  /** The copy of a spring; a copy with no end at a copied mass is dead at once. */
  function CopySpring(ms: seq<Mass>, s: Spring): Spring
    requires s.m1 < |ms| && s.m2 < |ms|
  {
    s.(m1 := Renamed(ms, s.m1), m2 := Renamed(ms, s.m2),
       status := if ms[s.m1].status.selected || ms[s.m2].status.selected
                 then s.status.(selected := false) else DEAD)
  }

  /** The copies of the selected springs among the first k, in order. */
  function CopySprings(ms: seq<Mass>, ss: seq<Spring>, k: nat): seq<Spring>
    requires k <= |ss| && EndsFit(ms, ss)
  {
    if k <= 0 then []
    else if ss[k - 1].status.selected then CopySprings(ms, ss, k - 1) + [CopySpring(ms, ss[k - 1])]
    else CopySprings(ms, ss, k - 1)
  }

  lemma {:induction false} CopyHasOriginal(ms: seq<Mass>, ss: seq<Spring>, k: nat, c: nat) returns (j: nat)
    requires k <= |ss| && EndsFit(ms, ss) && c < |CopySprings(ms, ss, k)|
    ensures j < k && ss[j].status.selected && CopySprings(ms, ss, k)[c] == CopySpring(ms, ss[j])
  {
    if ss[k - 1].status.selected && c == |CopySprings(ms, ss, k - 1)| {
      j := k - 1;
    } else {
      j := CopyHasOriginal(ms, ss, k - 1, c);
    }
  }

  lemma {:induction false} OriginalHasCopy(ms: seq<Mass>, ss: seq<Spring>, k: nat, j: nat) returns (c: nat)
    requires j < k <= |ss| && EndsFit(ms, ss) && ss[j].status.selected
    ensures c < |CopySprings(ms, ss, k)| && CopySprings(ms, ss, k)[c] == CopySpring(ms, ss[j])
  {
    if j == k - 1 {
      c := |CopySprings(ms, ss, k - 1)|;
    } else {
      c := OriginalHasCopy(ms, ss, k - 1, j);
    }
  }

  /** The originals are untouched; each selected mass has an unselected copy, in order, that
      lists exactly the copied springs at it; each selected spring has its copy, in order. */
  ghost predicate Duplicated(ms: seq<Mass>, ss: seq<Spring>, ms': seq<Mass>, ss': seq<Spring>, k: nat) {
    var chosen := Chosen(ms, |ms|);
    && EndsFit(ms, ss) && k <= |ss|
    && ss' == ss + CopySprings(ms, ss, k)
    && |ms'| == |ms| + |chosen| && ms'[..|ms|] == ms
    && (forall i :: |ms| <= i < |ms'| ==>
          ms'[i] == CopyMass(ms[chosen[i - |ms|]]).(pars := ms'[i].pars))
    && (forall i, j: nat {:trigger Listed(ms'[i], j)} :: |ms| <= i < |ms'| ==>
          Listed(ms'[i], j) == if |ss| <= j < |ss'| && ss'[j].status.alive then Ends(ss'[j], i) else 0)
  }

  /** The selected springs among the first k, in order. */
  function ChosenSprings(ss: seq<Spring>, k: nat): (c: seq<nat>)
    requires k <= |ss|
    ensures forall i :: 0 <= i < |c| ==> c[i] < k && ss[c[i]].status.selected
    ensures forall i, j :: 0 <= i < j < |c| ==> c[i] < c[j]
  {
    if k <= 0 then []
    else if ss[k - 1].status.selected then ChosenSprings(ss, k - 1) + [k - 1]
    else ChosenSprings(ss, k - 1)
  }

  lemma {:induction false} ChosenSpringAt(ss: seq<Spring>, k: nat, j: nat)
    requires j < k <= |ss| && ss[j].status.selected
    ensures |ChosenSprings(ss, j)| < |ChosenSprings(ss, k)| && ChosenSprings(ss, k)[|ChosenSprings(ss, j)|] == j
  {
    if j < k - 1 { ChosenSpringAt(ss, k - 1, j); }
  }

  /** m' is a copy of m: the same mass in the same place and motion, alive, fixed and
      temporarily fixed alike, but not selected. */
  ghost predicate SameButUnselected(m: Mass, m': Mass) {
    && m'.shape == m.shape && !m'.status.selected
    && m'.status.alive == m.status.alive && m'.status.fixed == m.status.fixed
    && m'.status.tempfixed == m.status.tempfixed
  }

  /** `now` is the end `was` of an original in its copy: the copy of a selected mass, or the
      mass itself. */
  ghost predicate EndOfCopy(ms: seq<Mass>, was: nat, now: nat)
    requires was < |ms|
  {
    if ms[was].status.selected then |ms| <= now < |ms| + |Chosen(ms, |ms|)| && Chosen(ms, |ms|)[now - |ms|] == was
    else now == was
  }

  /** s' is a copy of s: as stiff, damped and long, and in the same state but not selected; with
      no end at a selected mass it is dead. */
  ghost predicate CopyOfSpring(ms: seq<Mass>, s: Spring, s': Spring)
    requires s.m1 < |ms| && s.m2 < |ms|
  {
    && s'.ks == s.ks && s'.kd == s.kd && s'.restlen == s.restlen
    && EndOfCopy(ms, s.m1, s'.m1) && EndOfCopy(ms, s.m2, s'.m2)
    && !s'.status.selected
    && if ms[s.m1].status.selected || ms[s.m2].status.selected then
         s'.status.alive == s.status.alive && s'.status.fixed == s.status.fixed
         && s'.status.tempfixed == s.status.tempfixed
       else !s'.status.alive
  }

  /** The c-th new mass is a copy of the c-th selected one. */
  ghost predicate MassesCopied(ms: seq<Mass>, ms': seq<Mass>) {
    && |ms'| == |ms| + |Chosen(ms, |ms|)| && ms <= ms'
    && forall c :: 0 <= c < |Chosen(ms, |ms|)| ==> SameButUnselected(ms[Chosen(ms, |ms|)[c]], ms'[|ms| + c])
  }

  /** The c-th new spring is a copy of the c-th selected one. */
  ghost predicate SpringsCopied(ms: seq<Mass>, ss: seq<Spring>, ss': seq<Spring>)
    requires EndsFit(ms, ss)
  {
    && |ss'| == |ss| + |ChosenSprings(ss, |ss|)| && ss <= ss'
    && forall c :: 0 <= c < |ChosenSprings(ss, |ss|)| ==>
         CopyOfSpring(ms, ss[ChosenSprings(ss, |ss|)[c]], ss'[|ss| + c])
  }

  lemma {:induction false} MassesAreCopied(ms: seq<Mass>)
    ensures MassesCopied(ms, ms + CopiedMasses(ms, |ms|))
  {
    hide Chosen;
  }

  lemma {:induction false} RenamedIsEndOfCopy(ms: seq<Mass>, m: nat)
    requires m < |ms|
    ensures EndOfCopy(ms, m, Renamed(ms, m))
  {
    if ms[m].status.selected { ChosenAt(ms, |ms|, m); }
  }

  lemma {:induction false} SpringIsCopied(ms: seq<Mass>, s: Spring)
    requires s.m1 < |ms| && s.m2 < |ms|
    ensures CopyOfSpring(ms, s, CopySpring(ms, s))
  {
    RenamedIsEndOfCopy(ms, s.m1);
    RenamedIsEndOfCopy(ms, s.m2);
    hide EndOfCopy, Renamed;
  }

  lemma {:induction false} CopiesOfSprings(ms: seq<Mass>, ss: seq<Spring>, k: nat)
    requires k <= |ss| && EndsFit(ms, ss)
    ensures |CopySprings(ms, ss, k)| == |ChosenSprings(ss, k)|
    ensures forall c :: 0 <= c < |ChosenSprings(ss, k)| ==>
              CopyOfSpring(ms, ss[ChosenSprings(ss, k)[c]], CopySprings(ms, ss, k)[c])
  {
    hide CopyOfSpring, CopySpring;
    if k > 0 {
      CopiesOfSprings(ms, ss, k - 1);
      if ss[k - 1].status.selected { SpringIsCopied(ms, ss[k - 1]); }
    }
  }

  /** Duplication copies every selected object as it is. */
  lemma {:induction false} CopiesAreTrue(ms: seq<Mass>, ss: seq<Spring>, ms': seq<Mass>, ss': seq<Spring>)
    requires Duplicated(ms, ss, ms', ss', |ss|)
    ensures MassesCopied(ms, ms') && SpringsCopied(ms, ss, ss')
  {
    CopiesOfSprings(ms, ss, |ss|);
    hide Chosen, ChosenSprings, CopyOfSpring, CopySprings;
    var n := |ms|;
    forall c | 0 <= c < |Chosen(ms, n)| ensures SameButUnselected(ms[Chosen(ms, n)[c]], ms'[n + c]) {
      assert ms'[n + c] == CopyMass(ms[Chosen(ms, n)[n + c - n]]).(pars := ms'[n + c].pars);
    }
    assert forall c :: 0 <= c < |CopySprings(ms, ss, |ss|)| ==> ss'[|ss| + c] == CopySprings(ms, ss, |ss|)[c];
  }

  /** No selected spring has exactly one end at a selected mass. */
  predicate NoneHalfSelected(ms: seq<Mass>, ss: seq<Spring>)
    requires EndsFit(ms, ss)
  {
    forall j :: 0 <= j < |ss| && ss[j].status.selected ==>
      (ms[ss[j].m1].status.selected <==> ms[ss[j].m2].status.selected)
  }

  lemma {:induction false} CopiesAreLive(ms: seq<Mass>, ss: seq<Spring>, ms': seq<Mass>, ss': seq<Spring>, m: nat)
    requires Sound(ms, ss) && Duplicated(ms, ss, ms', ss', |ss|) && m < |ms| && ms[m].status.selected
    ensures |ms| <= Renamed(ms, m) < |ms'|
    ensures ms'[Renamed(ms, m)] == CopyMass(ms[m]).(pars := ms'[Renamed(ms, m)].pars)
    ensures ms'[Renamed(ms, m)].status.alive
  {
    ChosenAt(ms, |ms|, m);
  }

  /** What a living copied spring is, when no selected spring is half selected. */
  lemma {:induction false} CopiedSpring(ms: seq<Mass>, ss: seq<Spring>, ms': seq<Mass>, ss': seq<Spring>, p: nat)
    requires Sound(ms, ss) && Duplicated(ms, ss, ms', ss', |ss|) && |ss| <= p < |ss'|
    ensures ss'[p].m1 < |ms'| && ss'[p].m2 < |ms'| && !ss'[p].status.selected
    ensures NoneHalfSelected(ms, ss) && ss'[p].status.alive ==>
              && |ms| <= ss'[p].m1 && |ms| <= ss'[p].m2
              && ms'[ss'[p].m1].status.alive && ms'[ss'[p].m2].status.alive
  {
    var j := CopyHasOriginal(ms, ss, |ss|, p - |ss|);
    if ms[ss[j].m1].status.selected { CopiesAreLive(ms, ss, ms', ss', ss[j].m1); }
    if ms[ss[j].m2].status.selected { CopiesAreLive(ms, ss, ms', ss', ss[j].m2); }
  }

  lemma {:induction false} OldListsHaveNoNewSprings(ms: seq<Mass>, ss: seq<Spring>, i: nat, p: nat)
    requires Sound(ms, ss) && i < |ms| && ms[i].status.alive && |ss| <= p
    ensures Listed(ms[i], p) == 0
  {
    assert p !in ms[i].pars;
  }

  lemma {:induction false} DuplicationIsSound(ms: seq<Mass>, ss: seq<Spring>, ms': seq<Mass>, ss': seq<Spring>)
    requires Sound(ms, ss) && Duplicated(ms, ss, ms', ss', |ss|) && NoneHalfSelected(ms, ss)
    ensures Sound(ms', ss')
  {
    forall p | |ss| <= p < |ss'|
      ensures ss'[p].m1 < |ms'| && ss'[p].m2 < |ms'| && !ss'[p].status.selected
      ensures ss'[p].status.alive ==>
                && |ms| <= ss'[p].m1 && |ms| <= ss'[p].m2
                && ms'[ss'[p].m1].status.alive && ms'[ss'[p].m2].status.alive
    {
      CopiedSpring(ms, ss, ms', ss', p);
    }
    forall i | 0 <= i < |ms| ensures ms'[i] == ms[i] {
      assert ms'[..|ms|][i] == ms'[i];
    }
    forall i | |ms| <= i < |ms'| ensures !ms'[i].status.selected {}
    assert Shaped(ms', ss');
    assert Closed(ms', ss');
    NewListsInRange(ms, ss, ms', ss');
    NewSpringsRegistered(ms, ss, ms', ss');
  }

  lemma {:induction false} NewList(ms: seq<Mass>, ss: seq<Spring>, ms': seq<Mass>, ss': seq<Spring>, i: nat, j: nat)
    requires Duplicated(ms, ss, ms', ss', |ss|) && |ms| <= i < |ms'|
    ensures Listed(ms'[i], j) == if |ss| <= j < |ss'| && ss'[j].status.alive then Ends(ss'[j], i) else 0
  {
  }

  lemma {:induction false} NewListsInRange(ms: seq<Mass>, ss: seq<Spring>, ms': seq<Mass>, ss': seq<Spring>)
    requires Sound(ms, ss) && Duplicated(ms, ss, ms', ss', |ss|)
    ensures ListsInRange(ms', ss')
  {
    forall i, q | 0 <= i < |ms'| && ms'[i].status.alive && q in ms'[i].pars ensures q < |ss'| {
      if i < |ms| {
        assert ms'[..|ms|][i] == ms[i];
        assert q in ms[i].pars;
        assert q < |ss|;
      } else {
        NewList(ms, ss, ms', ss', i, q);
        assert q in multiset(ms'[i].pars);
      }
    }
  }

  lemma {:induction false} NewSpringsRegistered(ms: seq<Mass>, ss: seq<Spring>, ms': seq<Mass>, ss': seq<Spring>)
    requires Sound(ms, ss) && Duplicated(ms, ss, ms', ss', |ss|) && NoneHalfSelected(ms, ss)
    ensures Registered(ms', ss')
  {
    forall i, j | 0 <= i < |ms'| && ms'[i].status.alive && 0 < j < |ss'| && ss'[j].status.alive
      ensures Listed(ms'[i], j) == Ends(ss'[j], i)
    {
      if i < |ms| {
        assert ms'[..|ms|][i] == ms[i];
        if j >= |ss| {
          CopiedSpring(ms, ss, ms', ss', j);
          OldListsHaveNoNewSprings(ms, ss, i, j);
        }
      } else {
        if j < |ss| { assert ss'[j] == ss[j]; }
      }
    }
  }

  /** The copy of a half-selected spring keeps an end that does not list it, or is dead. */
  lemma {:induction false} HalfSelectedIsUnsound(ms: seq<Mass>, ss: seq<Spring>, ms': seq<Mass>, ss': seq<Spring>,
                                                 j: nat)
    returns (p: nat, u: nat)
    requires Sound(ms, ss) && Duplicated(ms, ss, ms', ss', |ss|)
    requires j < |ss| && ss[j].status.selected
    requires ms[ss[j].m1].status.selected != ms[ss[j].m2].status.selected
    ensures |ss| <= p < |ss'| && ss'[p] == CopySpring(ms, ss[j]) && ss'[p].status.alive
    ensures u < |ms| && Touches(ss[j], u) && !ms[u].status.selected && Touches(ss'[p], u) && ms'[u] == ms[u]
    ensures ms'[u].status.alive ==> Listed(ms'[u], p) == 0
    ensures !Sound(ms', ss')
  {
    var c := OriginalHasCopy(ms, ss, |ss|, j);
    p, u := |ss| + c, if ms[ss[j].m1].status.selected then ss[j].m2 else ss[j].m1;
    assert ss'[p] == CopySpring(ms, ss[j]) && ss'[p].status.alive && Touches(ss'[p], u);
    assert ms'[..|ms|][u] == ms[u];
    if ms[u].status.alive {
      OldListsHaveNoNewSprings(ms, ss, u, p);
      assert Listed(ms'[u], p) < Ends(ss'[p], u);
      assert !Registered(ms', ss');
    } else {
      CopiedSpring(ms, ss, ms', ss', p);
      assert !Closed(ms', ss');
    }
  }

  /** Duplication keeps the graph sound exactly when no selected spring is half selected. */
  lemma {:induction false} SoundExactlyWhenNoneHalfSelected(ms: seq<Mass>, ss: seq<Spring>, ms': seq<Mass>,
                                                            ss': seq<Spring>)
    requires Sound(ms, ss) && Duplicated(ms, ss, ms', ss', |ss|)
    ensures Sound(ms', ss') <==> NoneHalfSelected(ms, ss)
  {
    if NoneHalfSelected(ms, ss) {
      DuplicationIsSound(ms, ss, ms', ss');
    } else {
      var j :| 0 <= j < |ss| && ss[j].status.selected
               && ms[ss[j].m1].status.selected != ms[ss[j].m2].status.selected;
      var p, u := HalfSelectedIsUnsound(ms, ss, ms', ss', j);
    }
  }

  // ---------------------------------------------------------------------------
  // One step of the second loop
  // ---------------------------------------------------------------------------

  /** One more spring, `s`, at the end; the copied masses at its ends list it once per end. */
  ghost predicate Connected(ms: seq<Mass>, before: seq<Mass>, after: seq<Mass>, s: Spring, p: nat) {
    && |after| == |before| >= |ms|
    && (forall i :: 0 <= i < |ms| ==> after[i] == before[i])
    && (forall i :: |ms| <= i < |before| ==> after[i] == before[i].(pars := after[i].pars))
    && (forall i, j: nat {:trigger Listed(after[i], j)} :: |ms| <= i < |before| ==>
          Listed(after[i], j) == Listed(before[i], j) + if j == p then Ends(s, i) else 0)
  }

  lemma {:induction false} CopyAdded(ms: seq<Mass>, ss: seq<Spring>, ms1: seq<Mass>, ss1: seq<Spring>, ms2: seq<Mass>,
                                     k: nat)
    requires Duplicated(ms, ss, ms1, ss1, k) && k < |ss| && ss[k].status.selected && ss[k].status.alive
    requires Connected(ms, ms1, ms2, CopySpring(ms, ss[k]), |ss1|)
    ensures Duplicated(ms, ss, ms2, ss1 + [CopySpring(ms, ss[k])], k + 1)
  {
    var ss2 := ss1 + [CopySpring(ms, ss[k])];
    assert ms2[..|ms|] == ms1[..|ms|];
    var n := |Chosen(ms, |ms|)|;
    forall i, j: nat | |ms| <= i < |ms2|
      ensures Listed(ms2[i], j) == if |ss| <= j < |ss2| && ss2[j].status.alive then Ends(ss2[j], i) else 0
    {
      assert Listed(ms2[i], j) == Listed(ms1[i], j) + if j == |ss1| then Ends(CopySpring(ms, ss[k]), i) else 0;
      if j == |ss1| { DeadCopyTouchesNoCopy(ms, ss[k], i); }
    }
  }

  /** A dead copy keeps the ends of its original, which are no copies. */
  lemma {:induction false} DeadCopyTouchesNoCopy(ms: seq<Mass>, s: Spring, i: nat)
    requires s.m1 < |ms| && s.m2 < |ms| && s.status.alive && i >= |ms|
    ensures !CopySpring(ms, s).status.alive ==> Ends(CopySpring(ms, s), i) == 0
  {
  }

  lemma {:induction false} SpringNotCopied(ms: seq<Mass>, ss: seq<Spring>, ms1: seq<Mass>, ss1: seq<Spring>, k: nat)
    requires Duplicated(ms, ss, ms1, ss1, k) && k < |ss| && !ss[k].status.selected
    ensures Duplicated(ms, ss, ms1, ss1, k + 1)
  {
  }

  lemma {:induction false} NothingCopied(ms: seq<Mass>, ss: seq<Spring>, ms1: seq<Mass>)
    requires Shaped(ms, ss) && ms1 == ms + CopiedMasses(ms, |ms|)
    ensures Duplicated(ms, ss, ms1, ss, 0)
  {
  }

  lemma {:induction false} InCopyRange(ms: seq<Mass>, ss: seq<Spring>, ms1: seq<Mass>, ss1: seq<Spring>, k: nat)
    requires Sound(ms, ss) && Duplicated(ms, ss, ms1, ss1, k) && k < |ss|
    ensures |ss| <= |ss1| && ss1[k] == ss[k]
    ensures forall i :: 0 <= i < |ms| ==> ms1[i] == ms[i] && (ms[i].status.alive ==> |ss1| !in ms[i].pars)
  {
    forall i | 0 <= i < |ms| ensures ms1[i] == ms[i] {
      assert ms1[..|ms|][i] == ms1[i];
    }
  }

  /** Moving one more end to copy c and listing the spring there once more. */
  lemma {:induction false} EndConnected(ms: seq<Mass>, start: seq<Mass>, before: seq<Mass>, s: Spring, s': Spring,
                                        c: nat, p: nat)
    requires Connected(ms, start, before, s, p) && |ms| <= c < |before|
    requires (s' == s.(m1 := c) && s.m1 < |ms|) || (s' == s.(m2 := c) && s.m2 < |ms|)
    ensures Connected(ms, start, before[c := before[c].(pars := before[c].pars + [p])], s', p)
  {
    var after := before[c := before[c].(pars := before[c].pars + [p])];
    forall i, j: nat | |ms| <= i < |before|
      ensures Listed(after[i], j) == Listed(start[i], j) + if j == p then Ends(s', i) else 0
    {
      assert Listed(before[i], j) == Listed(start[i], j) + if j == p then Ends(s, i) else 0;
    }
  }

  lemma {:induction false} NothingConnected(ms: seq<Mass>, start: seq<Mass>, s: Spring, p: nat)
    requires |ms| <= |start| && s.m1 < |ms| && s.m2 < |ms|
    ensures Connected(ms, start, start, s, p)
  {
    forall i | |ms| <= i < |start| ensures Ends(s, i) == 0 {}
  }

  /** An end looked up in the first j entries of the map: moved to the copy, or not met yet. */
  ghost predicate EndMoved(ms: seq<Mass>, was: nat, now: nat, done: bool, mapfrom: seq<nat>, j: nat)
    requires was < |ms| && j <= |mapfrom|
  {
    if done then ms[was].status.selected && now == Renamed(ms, was) else now == was && was !in mapfrom[..j]
  }

  lemma {:induction false} NothingSeen(ms: seq<Mass>, was: nat, mapfrom: seq<nat>)
    requires was < |ms|
    ensures EndMoved(ms, was, was, false, mapfrom, 0)
  {
  }

  lemma {:induction false} EndSeen(ms: seq<Mass>, was: nat, now: nat, done: bool, mapfrom: seq<nat>, j: nat)
    requires was < |ms| && mapfrom == Chosen(ms, |ms|) && j < |mapfrom| && EndMoved(ms, was, now, done, mapfrom, j)
    ensures if !done && now == mapfrom[j] then EndMoved(ms, was, |ms| + j, true, mapfrom, j + 1)
            else EndMoved(ms, was, now, done, mapfrom, j + 1)
  {
    ChosenRank(ms, |ms|, j);
    assert mapfrom[..j + 1] == mapfrom[..j] + [mapfrom[j]];
  }

  lemma {:induction false} EndDone(ms: seq<Mass>, was: nat, now: nat, done: bool, mapfrom: seq<nat>, j: nat)
    requires was < |ms| && mapfrom == Chosen(ms, |ms|) && j <= |mapfrom| && EndMoved(ms, was, now, done, mapfrom, j)
    requires done || j == |mapfrom|
    ensures done == ms[was].status.selected && now == Renamed(ms, was)
  {
    if ms[was].status.selected {
      ChosenAt(ms, |ms|, was);
      assert mapfrom[..|mapfrom|] == mapfrom;
    }
  }
}
