/**
 The simulator's text file as a sequence of records (one per line, numbers exact), and
 what saving and loading make of a spring graph.
 */
module FileFormat {
  import opened Graph
  import Preferences

  /** A fixed mass is written with its mass negated. */
  datatype Record =
    | MassRec(id: nat, x: real, y: real, vx: real, vy: real, mass: real, elastic: real)
    | SpngRec(sid: nat, m1: nat, m2: nat, ks: real, kd: real, restlen: real)
    | CentRec(centre: int)
    | PrefRec(line: Preferences.Line)

  /** mass_radius, whose logarithm is not modelled. */
  type Radius = real -> int

  // ---------------------------------------------------------------------------
  // One object
  // ---------------------------------------------------------------------------

  function MassLine(i: nat, m: Mass): Record {
    var s := m.shape;
    MassRec(i, s.x, s.y, s.vx, s.vy, if m.status.fixed then -s.mass else s.mass, s.elastic)
  }

  function SpringLine(j: nat, s: Spring): Record {
    SpngRec(j, s.m1, s.m2, s.ks, s.kd, s.restlen)
  }

  function ReadMass(radius: Radius, r: Record, selected: bool): Mass
    requires r.MassRec?
  {
    var mass := if r.mass < 0.0 then -r.mass else r.mass;
    Mass(Shape(r.x, r.y, r.vx, r.vy, mass, r.elastic, radius(mass)), [], Status(true, selected, r.mass < 0.0, false))
  }

  /** The same mass, unselected and not temporarily fixed, its list still empty. */
  function Plain(m: Mass): Mass {
    m.(pars := [], status := Status(m.status.alive, false, m.status.fixed, false))
  }

  /** What the fields of a line are, and what becomes of them: fixing is the sign of the mass. */
  lemma {:induction false} FieldsOfMassLine(radius: Radius, i: nat, m: Mass, r: Record, selected: bool)
    requires r.MassRec?
    ensures var l, s := MassLine(i, m), m.shape;
            && l.MassRec? && l.id == i && l.x == s.x && l.y == s.y && l.vx == s.vx && l.vy == s.vy
            && l.elastic == s.elastic && (if m.status.fixed then l.mass == -s.mass else l.mass == s.mass)
    ensures var n := ReadMass(radius, r, selected);
            && n.shape.x == r.x && n.shape.y == r.y && n.shape.vx == r.vx && n.shape.vy == r.vy
            && n.shape.elastic == r.elastic && n.shape.radius == radius(n.shape.mass) && n.pars == []
            && n.shape.mass >= 0.0 && (n.shape.mass == r.mass || n.shape.mass == -r.mass)
            && (n.status.fixed <==> r.mass < 0.0) && n.status.alive && (n.status.selected <==> selected)
  {
  }

  /** A living mass survives its line exactly when it is positive, or zero and not fixed,
      and its radius is the one its mass gives. */
  lemma {:induction false} MassSurvivesExactly(radius: Radius, i: nat, m: Mass)
    requires m.status.alive
    ensures ReadMass(radius, MassLine(i, m), false) == Plain(m)
            <==> ((m.shape.mass > 0.0 || (m.shape.mass == 0.0 && !m.status.fixed))
                  && m.shape.radius == radius(m.shape.mass))
  {
    var r := ReadMass(radius, MassLine(i, m), false);
    if m.shape.mass < 0.0 { assert r.shape.mass != m.shape.mass; }
  }

  // ---------------------------------------------------------------------------
  // Saving
  // ---------------------------------------------------------------------------

  /** The living masses among the first k, in order. */
  function Living(ms: seq<Mass>, k: nat): (c: seq<nat>)
    requires k <= |ms|
    ensures forall i :: 0 <= i < |c| ==> c[i] < k && ms[c[i]].status.alive
    ensures forall i, j :: 0 <= i < j < |c| ==> c[i] < c[j]
  {
    if k <= 0 then []
    else if ms[k - 1].status.alive then Living(ms, k - 1) + [k - 1]
    else Living(ms, k - 1)
  }

  function LivingSprings(ss: seq<Spring>, k: nat): (c: seq<nat>)
    requires k <= |ss|
    ensures forall i :: 0 <= i < |c| ==> c[i] < k && ss[c[i]].status.alive
    ensures forall i, j :: 0 <= i < j < |c| ==> c[i] < c[j]
  {
    if k <= 0 then []
    else if ss[k - 1].status.alive then LivingSprings(ss, k - 1) + [k - 1]
    else LivingSprings(ss, k - 1)
  }

  function MassLines(ms: seq<Mass>, k: nat): (f: seq<Record>)
    requires k <= |ms|
    ensures |f| == |Living(ms, k)|
    ensures forall i :: 0 <= i < |f| ==> f[i] == MassLine(Living(ms, k)[i], ms[Living(ms, k)[i]])
  {
    if k <= 0 then []
    else if ms[k - 1].status.alive then MassLines(ms, k - 1) + [MassLine(k - 1, ms[k - 1])]
    else MassLines(ms, k - 1)
  }

  function SpringLines(ss: seq<Spring>, k: nat): (f: seq<Record>)
    requires k <= |ss|
    ensures |f| == |LivingSprings(ss, k)|
    ensures forall i :: 0 <= i < |f| ==> f[i] == SpringLine(LivingSprings(ss, k)[i], ss[LivingSprings(ss, k)[i]])
  {
    if k <= 0 then []
    else if ss[k - 1].status.alive then SpringLines(ss, k - 1) + [SpringLine(k - 1, ss[k - 1])]
    else SpringLines(ss, k - 1)
  }

  lemma {:induction false} SavedMassesStep(ms: seq<Mass>, k: nat)
    requires k < |ms|
    ensures MassLines(ms, k + 1) == MassLines(ms, k) + if ms[k].status.alive then [MassLine(k, ms[k])] else []
    ensures MassLines(ms, 0) == []
  {
  }

  lemma {:induction false} SavedSpringsStep(ss: seq<Spring>, k: nat)
    requires k < |ss|
    ensures SpringLines(ss, k + 1) == SpringLines(ss, k) + if ss[k].status.alive then [SpringLine(k, ss[k])] else []
    ensures SpringLines(ss, 0) == []
  {
  }

  function PrefRecs(ls: seq<Preferences.Line>): (f: seq<Record>)
    ensures |f| == |ls| && forall i :: 0 <= i < |ls| ==> f[i] == PrefRec(ls[i])
  {
    seq(|ls|, i requires 0 <= i < |ls| => PrefRec(ls[i]))
  }

  /** The settings, with the line of the centre among them. */
  function Header(centre: int, prefs: Preferences.Prefs): seq<Record> {
    PrefRecs(Preferences.Numbers(prefs) + Preferences.Switches(prefs)) + [CentRec(centre)]
    + PrefRecs(Preferences.Forces(prefs, Preferences.BF_NUM) + Preferences.Stepping(prefs) + Preferences.Rest(prefs))
  }

  lemma {:induction false} HeaderInParts(start: seq<Record>, a: seq<Preferences.Line>, b: seq<Preferences.Line>,
                                         c: seq<Preferences.Line>)
    ensures start + PrefRecs(a) + PrefRecs(b) + PrefRecs(c) == start + PrefRecs(a + b + c)
  {
    assert PrefRecs(a) + PrefRecs(b) + PrefRecs(c) == PrefRecs(a + b + c);
  }

  function FileOf(ms: seq<Mass>, ss: seq<Spring>, centre: int, prefs: Preferences.Prefs): seq<Record> {
    Header(centre, prefs) + MassLines(ms, |ms|) + SpringLines(ss, |ss|)
  }

  // ---------------------------------------------------------------------------
  // Loading
  // ---------------------------------------------------------------------------

  /** The mass lines of a file, in order; the spring lines likewise. */
  function MassesIn(f: seq<Record>): (r: seq<Record>)
    ensures forall i :: 0 <= i < |r| ==> r[i].MassRec?
  {
    if f == [] then []
    else if f[|f| - 1].MassRec? then MassesIn(f[..|f| - 1]) + [f[|f| - 1]]
    else MassesIn(f[..|f| - 1])
  }

  function SpringsIn(f: seq<Record>): (r: seq<Record>)
    ensures forall i :: 0 <= i < |r| ==> r[i].SpngRec?
  {
    if f == [] then []
    else if f[|f| - 1].SpngRec? then SpringsIn(f[..|f| - 1]) + [f[|f| - 1]]
    else SpringsIn(f[..|f| - 1])
  }

  ghost predicate AllMasses(lines: seq<Record>) {
    forall i :: 0 <= i < |lines| ==> lines[i].MassRec?
  }

  /** The lines of settings, in order. */
  function PrefsIn(f: seq<Record>): seq<Preferences.Line> {
    if f == [] then []
    else if f[|f| - 1].PrefRec? then PrefsIn(f[..|f| - 1]) + [f[|f| - 1].line]
    else PrefsIn(f[..|f| - 1])
  }

  /** Where a mass id is first defined among the mass lines; their number if it is not. */
  function Position(lines: seq<Record>, id: nat): (p: nat)
    requires AllMasses(lines)
    ensures p <= |lines|
    ensures p < |lines| ==> lines[p].id == id
    ensures forall i :: 0 <= i < p ==> lines[i].id != id
  {
    if lines == [] then 0
    else if lines[0].id == id then 0
    else 1 + Position(lines[1..], id)
  }

  /** Both ends of every spring line are defined by some mass line. */
  predicate Refers(f: seq<Record>) {
    forall r :: r in SpringsIn(f) ==>
      Met(MassesIn(f), r.m1) && Met(MassesIn(f), r.m2)
  }

  /** Some mass line defines the id. */
  predicate Met(lines: seq<Record>, id: nat)
    requires AllMasses(lines)
  {
    Position(lines, id) < |lines|
  }

  /** What becomes of an id once the masses of its file are known to start at index `base`:
      the index of its mass, or, if the file defines none, the raw number. */
  function EndOf(lines: seq<Record>, base: nat, id: nat): nat
    requires AllMasses(lines)
  {
    if Met(lines, id) then base + Position(lines, id) else id
  }

  /** A spring line with its ids resolved; with neither resolved, the spring is deleted. */
  function ReadSpring(lines: seq<Record>, base: nat, r: Record, selected: bool): Spring
    requires r.SpngRec? && AllMasses(lines)
  {
    var s := RawSpring(r, selected).(m1 := EndOf(lines, base, r.m1), m2 := EndOf(lines, base, r.m2));
    if Met(lines, r.m1) || Met(lines, r.m2) then s else Killed(s)
  }

  /** A spring line before its ids are resolved. */
  function RawSpring(r: Record, selected: bool): Spring
    requires r.SpngRec?
  {
    Spring(r.m1, r.m2, r.ks, r.kd, r.restlen, Status(true, selected, false, false))
  }

  /** The last centre line wins. */
  function LastCentre(f: seq<Record>, c: int): int {
    if f == [] then c
    else if f[|f| - 1].CentRec? then f[|f| - 1].centre
    else LastCentre(f[..|f| - 1], c)
  }

  /** The two arrays of the id map: ids of the mass lines, and their indices from `base` on. */
  ghost predicate MapsTo(lines: seq<Record>, base: nat, mapfrom: seq<nat>, mapto: seq<nat>)
    requires AllMasses(lines)
  {
    && |mapfrom| == |mapto| == |lines|
    && (forall k :: 0 <= k < |lines| ==> mapfrom[k] == lines[k].id)
    && (forall k :: 0 <= k < |lines| ==> mapto[k] == base + k)
  }

  /** An end after the first k entries of the map: resolved, or not met yet. */
  ghost predicate Resolved(lines: seq<Record>, base: nat, was: nat, now: nat, done: bool, k: nat)
    requires AllMasses(lines)
  {
    if done then Met(lines, was) && now == EndOf(lines, base, was) else now == was && k <= Position(lines, was)
  }

  lemma {:induction false} NotMetYet(lines: seq<Record>, base: nat, id: nat)
    requires AllMasses(lines)
    ensures Resolved(lines, base, id, id, false, 0)
  {
  }

  /** Looking at entry k of the map. */
  lemma {:induction false} ResolvedStep(lines: seq<Record>, base: nat, was: nat, now: nat, done: bool, k: nat)
    requires AllMasses(lines) && Resolved(lines, base, was, now, done, k) && k < |lines|
    ensures !done && now == lines[k].id ==> Resolved(lines, base, was, base + k, true, k + 1)
    ensures done || now != lines[k].id ==> Resolved(lines, base, was, now, done, k + 1)
  {
  }

  lemma {:induction false} ResolvedEnds(lines: seq<Record>, base: nat, was: nat, now: nat, done: bool)
    requires AllMasses(lines) && Resolved(lines, base, was, now, done, |lines|)
    ensures now == EndOf(lines, base, was) && (done <==> Met(lines, was))
  {
  }

  lemma {:induction false} ResolvedDone(lines: seq<Record>, base: nat, was: nat, now: nat, k: nat)
    requires AllMasses(lines) && Resolved(lines, base, was, now, true, k)
    ensures now == EndOf(lines, base, was) && Met(lines, was)
  {
  }

  /** The centre and the settings once the lines of f are read; inserting leaves them alone. */
  ghost predicate SettingsRead(f: seq<Record>, insert: bool, centre: int, prefs: Preferences.Prefs,
                               centre': int, prefs': Preferences.Prefs) {
    if insert then centre' == centre && prefs' == prefs
    else centre' == LastCentre(f, centre) && prefs' == Preferences.ReadAll(prefs, PrefsIn(f))
  }

  lemma {:induction false} NoSettingsRead(insert: bool, centre: int, prefs: Preferences.Prefs)
    ensures SettingsRead([], insert, centre, prefs, centre, prefs)
  {
  }

  lemma {:induction false} SettingsReadSnoc(f: seq<Record>, r: Record, insert: bool,
                                            centre: int, prefs: Preferences.Prefs, c: int, p: Preferences.Prefs)
    requires SettingsRead(f, insert, centre, prefs, c, p)
    ensures SettingsRead(f + [r], insert, centre, prefs, if r.CentRec? && !insert then r.centre else c,
                         if r.PrefRec? && !insert then Preferences.Read(p, r.line) else p)
  {
    LinesSnoc(f, r);
    if r.PrefRec? { Preferences.ReadOneMore(prefs, PrefsIn(f), r.line); }
    hide LastCentre, PrefsIn, Preferences.ReadAll, Preferences.Read, MassesIn, SpringsIn;
  }

  /** The lines read, but ids not resolved and lists not rebuilt. */
  ghost predicate Added(radius: Radius, f: seq<Record>, selected: bool,
                        ms: seq<Mass>, ss: seq<Spring>, ms': seq<Mass>, ss': seq<Spring>) {
    && |ms'| == |ms| + |MassesIn(f)| && |ss'| == |ss| + |SpringsIn(f)|
    && (forall i :: 0 <= i < |ms| ==> ms'[i] == ms[i])
    && (forall i :: |ms| <= i < |ms'| ==> ms'[i] == ReadMass(radius, MassesIn(f)[i - |ms|], selected))
    && (forall j :: 0 <= j < |ss| ==> ss'[j] == ss[j])
    && (forall j :: |ss| <= j < |ss'| ==> ss'[j] == RawSpring(SpringsIn(f)[j - |ss|], selected))
  }

  lemma {:induction false} NothingAdded(radius: Radius, selected: bool, ms: seq<Mass>, ss: seq<Spring>)
    ensures Added(radius, [], selected, ms, ss, ms, ss) && MapsTo(MassesIn([]), |ms|, [], [])
  {
  }

  /** One line more. */
  lemma {:induction false} LinesSnoc(f: seq<Record>, r: Record)
    ensures MassesIn(f + [r]) == if r.MassRec? then MassesIn(f) + [r] else MassesIn(f)
    ensures SpringsIn(f + [r]) == if r.SpngRec? then SpringsIn(f) + [r] else SpringsIn(f)
    ensures PrefsIn(f + [r]) == if r.PrefRec? then PrefsIn(f) + [r.line] else PrefsIn(f)
    ensures forall c :: LastCentre(f + [r], c) == if r.CentRec? then r.centre else LastCentre(f, c)
  {
    var g := f + [r];
    assert g[..|g| - 1] == f && g[|g| - 1] == r;
  }

  lemma {:induction false} AddedSnoc(radius: Radius, f: seq<Record>, r: Record, selected: bool,
                                     ms: seq<Mass>, ss: seq<Spring>, ms': seq<Mass>, ss': seq<Spring>)
    requires Added(radius, f, selected, ms, ss, ms', ss')
    ensures var more := if r.MassRec? then [ReadMass(radius, r, selected)] else [];
            var springs := if r.SpngRec? then [RawSpring(r, selected)] else [];
            Added(radius, f + [r], selected, ms, ss, ms' + more, ss' + springs)
  {
    LinesSnoc(f, r);
    hide MassesIn, SpringsIn, LastCentre, ReadMass, RawSpring;
  }

  lemma {:induction false} MapSnoc(lines: seq<Record>, r: Record, base: nat, mapfrom: seq<nat>, mapto: seq<nat>)
    requires AllMasses(lines) && r.MassRec? && MapsTo(lines, base, mapfrom, mapto)
    ensures MapsTo(lines + [r], base, mapfrom + [r.id], mapto + [base + |lines|])
  {
  }

  /** All that loading changes. */
  datatype System = System(masses: seq<Mass>, springs: seq<Spring>, centre: int, prefs: Preferences.Prefs)

  /** One line read: a mass or a spring at a fresh index, the centre, or a setting. */
  ghost predicate LineRead(radius: Radius, r: Record, selected: bool, insert: bool, s: System, s': System) {
    && s'.masses == s.masses + (if r.MassRec? then [ReadMass(radius, r, selected)] else [])
    && s'.springs == s.springs + (if r.SpngRec? then [RawSpring(r, selected)] else [])
    && s'.centre == (if r.CentRec? && !insert then r.centre else s.centre)
    && s'.prefs == (if r.PrefRec? && !insert then Preferences.Read(s.prefs, r.line) else s.prefs)
  }

  /** The lines f read, from s to s', and where they put their masses. */
  ghost predicate LinesRead(radius: Radius, f: seq<Record>, selected: bool, insert: bool, s: System, s': System,
                            mapfrom: seq<nat>, mapto: seq<nat>) {
    && Added(radius, f, selected, s.masses, s.springs, s'.masses, s'.springs)
    && MapsTo(MassesIn(f), |s.masses|, mapfrom, mapto)
    && SettingsRead(f, insert, s.centre, s.prefs, s'.centre, s'.prefs)
  }

  lemma {:induction false} NoLinesRead(radius: Radius, selected: bool, insert: bool, s: System)
    ensures LinesRead(radius, [], selected, insert, s, s, [], [])
  {
    NothingAdded(radius, selected, s.masses, s.springs);
    NoSettingsRead(insert, s.centre, s.prefs);
  }

  lemma {:induction false} LinesReadSnoc(radius: Radius, f: seq<Record>, r: Record, selected: bool, insert: bool,
                                         s: System, t: System, t': System, mapfrom: seq<nat>, mapto: seq<nat>)
    requires LinesRead(radius, f, selected, insert, s, t, mapfrom, mapto)
    requires LineRead(radius, r, selected, insert, t, t')
    ensures LinesRead(radius, f + [r], selected, insert, s, t', mapfrom + if r.MassRec? then [r.id] else [],
                      mapto + if r.MassRec? then [|t.masses|] else [])
  {
    LinesSnoc(f, r);
    assert |t.masses| == |s.masses| + |MassesIn(f)|;
    hide Added, MapsTo, MassesIn, SpringsIn, LastCentre, PrefsIn, ReadMass, RawSpring, SettingsRead, Preferences.Read;
    AddedSnoc(radius, f, r, selected, s.masses, s.springs, t.masses, t.springs);
    SettingsReadSnoc(f, r, insert, s.centre, s.prefs, t.centre, t.prefs);
    if r.MassRec? { MapSnoc(MassesIn(f), r, |s.masses|, mapfrom, mapto); }
  }

  /** The lines read and their ids resolved, but lists not rebuilt. */
  ghost predicate Renumbered(radius: Radius, f: seq<Record>, selected: bool,
                             ms: seq<Mass>, ss: seq<Spring>, ms': seq<Mass>, ss': seq<Spring>) {
    && |ms'| == |ms| + |MassesIn(f)| && |ss'| == |ss| + |SpringsIn(f)|
    && (forall i :: 0 <= i < |ms| ==> ms'[i] == ms[i])
    && (forall i :: |ms| <= i < |ms'| ==> ms'[i] == ReadMass(radius, MassesIn(f)[i - |ms|], selected))
    && (forall j :: 0 <= j < |ss| ==> ss'[j] == ss[j])
    && (forall j :: |ss| <= j < |ss'| ==> ss'[j] == ReadSpring(MassesIn(f), |ms|, SpringsIn(f)[j - |ss|], selected))
  }

  /** The graph (ms, ss) with the contents of file f added at fresh indices and every list rebuilt. */
  ghost predicate Loaded(radius: Radius, f: seq<Record>, selected: bool,
                         ms: seq<Mass>, ss: seq<Spring>, ms': seq<Mass>, ss': seq<Spring>) {
    var lines, springs := MassesIn(f), SpringsIn(f);
    && |ms'| == |ms| + |lines| && |ss'| == |ss| + |springs| && ss'[..|ss|] == ss
    && (forall i :: 0 <= i < |ms| ==> ms'[i] == ms[i].(pars := ms'[i].pars))
    && (forall i :: |ms| <= i < |ms'| ==>
          ms'[i] == ReadMass(radius, lines[i - |ms|], selected).(pars := ms'[i].pars))
    && (forall j :: |ss| <= j < |ss'| ==> ss'[j] == ReadSpring(lines, |ms|, springs[j - |ss|], selected))
    && ListsRebuilt(ms', ss')
  }

  // ---------------------------------------------------------------------------
  // Which files can be loaded
  // ---------------------------------------------------------------------------

  /** Added behind `base` masses, every end of the file's springs names a slot. */
  predicate InBounds(f: seq<Record>, base: nat) {
    forall r :: r in SpringsIn(f) ==>
      EndOf(MassesIn(f), base, r.m1) < base + |MassesIn(f)| && EndOf(MassesIn(f), base, r.m2) < base + |MassesIn(f)|
  }

  /** The id resolves, or as a raw number names a living mass of the resulting array. */
  predicate Lands(lines: seq<Record>, ms: seq<Mass>, id: nat)
    requires AllMasses(lines)
  {
    Met(lines, id) || (if id < |ms| then ms[id].status.alive else id < |ms| + |lines|)
  }

  /** A spring line that does no harm: both ends name slots, living ones if the spring survives. */
  predicate GoodLine(lines: seq<Record>, ms: seq<Mass>, r: Record)
    requires AllMasses(lines) && r.SpngRec?
  {
    && EndOf(lines, |ms|, r.m1) < |ms| + |lines| && EndOf(lines, |ms|, r.m2) < |ms| + |lines|
    && (Met(lines, r.m1) || Met(lines, r.m2) ==> Lands(lines, ms, r.m1) && Lands(lines, ms, r.m2))
  }

  predicate Usable(f: seq<Record>, ms: seq<Mass>) {
    forall r :: r in SpringsIn(f) ==> GoodLine(MassesIn(f), ms, r)
  }

  /** A spring between slots of ms, living ones if it is living. */
  ghost predicate WellPlaced(ms: seq<Mass>, s: Spring) {
    && s.m1 < |ms| && s.m2 < |ms| && (s.status.selected ==> s.status.alive)
    && (s.status.alive ==> ms[s.m1].status.alive && ms[s.m2].status.alive)
  }

  lemma {:induction false} EndIsLiving(lines: seq<Record>, ms: seq<Mass>, ms': seq<Mass>, id: nat)
    requires AllMasses(lines) && |ms'| == |ms| + |lines|
    requires forall i :: 0 <= i < |ms| ==> ms'[i].status == ms[i].status
    requires forall i :: |ms| <= i < |ms'| ==> ms'[i].status.alive
    ensures var e := EndOf(lines, |ms|, id); Lands(lines, ms, id) <==> e < |ms'| && ms'[e].status.alive
  {
  }

  /** A line is good exactly when its spring is well placed in the resulting array. */
  lemma {:induction false} GoodLineIsWellPlaced(lines: seq<Record>, ms: seq<Mass>, ms': seq<Mass>, r: Record,
                                                selected: bool)
    requires AllMasses(lines) && r.SpngRec? && |ms'| == |ms| + |lines|
    requires forall i :: 0 <= i < |ms| ==> ms'[i].status == ms[i].status
    requires forall i :: |ms| <= i < |ms'| ==> ms'[i].status.alive
    ensures GoodLine(lines, ms, r) <==> WellPlaced(ms', ReadSpring(lines, |ms|, r, selected))
  {
    EndIsLiving(lines, ms, ms', r.m1);
    EndIsLiving(lines, ms, ms', r.m2);
    hide Lands, EndOf, Met;
  }

  /** What loading adds to a graph that is in shape. */
  ghost predicate Extends(ms: seq<Mass>, ss: seq<Spring>, ms': seq<Mass>, ss': seq<Spring>) {
    && |ms| <= |ms'| && |ss| <= |ss'|
    && (forall i :: 0 <= i < |ms| ==> ms'[i].status == ms[i].status)
    && (forall i :: |ms| <= i < |ms'| ==> ms'[i].status.alive)
    && (forall j :: 0 <= j < |ss| ==> ss'[j] == ss[j])
  }

  /** Once the lists are rebuilt, a graph extended from a sound one is sound exactly when the
      springs added are well placed. */
  lemma {:induction false} ExtensionIsSound(ms: seq<Mass>, ss: seq<Spring>, ms': seq<Mass>, ss': seq<Spring>)
    requires Shaped(ms, ss) && Closed(ms, ss) && Extends(ms, ss, ms', ss')
    ensures Shaped(ms', ss') && Closed(ms', ss') <==> forall j :: |ss| <= j < |ss'| ==> WellPlaced(ms', ss'[j])
    ensures EndsFit(ms', ss') <==> forall j :: |ss| <= j < |ss'| ==> ss'[j].m1 < |ms'| && ss'[j].m2 < |ms'|
  {
    if Shaped(ms', ss') && Closed(ms', ss') {
      forall j | |ss| <= j < |ss'| ensures WellPlaced(ms', ss'[j]) {}
    }
    if forall j :: |ss| <= j < |ss'| ==> WellPlaced(ms', ss'[j]) {
      WellPlacedExtension(ms, ss, ms', ss');
    }
  }

  lemma {:induction false} WellPlacedExtension(ms: seq<Mass>, ss: seq<Spring>, ms': seq<Mass>, ss': seq<Spring>)
    requires Shaped(ms, ss) && Closed(ms, ss) && Extends(ms, ss, ms', ss')
    requires forall j :: |ss| <= j < |ss'| ==> WellPlaced(ms', ss'[j])
    ensures Shaped(ms', ss') && Closed(ms', ss')
  {
    forall j | 0 <= j < |ss'| ensures WellPlaced(ms', ss'[j]) || j == FAKE {}
  }

  lemma {:induction false} LoadedExtends(radius: Radius, f: seq<Record>, selected: bool,
                                         ms: seq<Mass>, ss: seq<Spring>, ms': seq<Mass>, ss': seq<Spring>)
    requires Loaded(radius, f, selected, ms, ss, ms', ss')
    ensures Extends(ms, ss, ms', ss') && |ms'| == |ms| + |MassesIn(f)| && |ss'| == |ss| + |SpringsIn(f)|
  {
    hide ListsRebuilt, MassesIn, SpringsIn;
    forall j | 0 <= j < |ss| ensures ss'[j] == ss[j] {
      assert ss'[..|ss|][j] == ss[j];
    }
  }

  /** The loaded graph stays within its arrays exactly when the file is in bounds. */
  lemma {:induction false} LoadedInBoundsExactly(radius: Radius, f: seq<Record>, selected: bool,
                                                 ms: seq<Mass>, ss: seq<Spring>, ms': seq<Mass>, ss': seq<Spring>)
    requires Shaped(ms, ss) && Closed(ms, ss) && Loaded(radius, f, selected, ms, ss, ms', ss')
    ensures EndsFit(ms', ss') <==> InBounds(f, |ms|)
  {
    LoadedExtends(radius, f, selected, ms, ss, ms', ss');
    ExtensionIsSound(ms, ss, ms', ss');
    hide Extends, Shaped, Closed, EndsFit, WellPlaced, MassesIn, SpringsIn, EndOf, Met, ListsRebuilt;
    var lines, springs := MassesIn(f), SpringsIn(f);
    forall k | 0 <= k < |springs|
      ensures springs[k] in SpringsIn(f) && ss'[|ss| + k].m1 == EndOf(lines, |ms|, springs[k].m1)
      ensures ss'[|ss| + k].m2 == EndOf(lines, |ms|, springs[k].m2)
    {
    }
    forall j | |ss| <= j < |ss'|
      ensures ss'[j].m1 == EndOf(lines, |ms|, springs[j - |ss|].m1) && springs[j - |ss|] in springs
      ensures ss'[j].m2 == EndOf(lines, |ms|, springs[j - |ss|].m2)
    {
    }
  }

  /** Loading keeps the graph sound exactly when no spring line does harm. */
  lemma {:induction false} LoadedSoundExactly(radius: Radius, f: seq<Record>, selected: bool,
                                              ms: seq<Mass>, ss: seq<Spring>, ms': seq<Mass>, ss': seq<Spring>)
    requires Shaped(ms, ss) && Closed(ms, ss) && Loaded(radius, f, selected, ms, ss, ms', ss')
    ensures Sound(ms', ss') <==> Usable(f, ms)
  {
    LoadedExtends(radius, f, selected, ms, ss, ms', ss');
    ExtensionIsSound(ms, ss, ms', ss');
    RebuiltIsRegistered(ms', ss');
    LinesWellPlaced(radius, f, selected, ms, ss, ms', ss');
    hide Extends, Shaped, Closed, Usable, WellPlaced, Loaded, ListsInRange, Registered, ListsRebuilt;
  }

  lemma {:induction false} LinesWellPlaced(radius: Radius, f: seq<Record>, selected: bool,
                                           ms: seq<Mass>, ss: seq<Spring>, ms': seq<Mass>, ss': seq<Spring>)
    requires Loaded(radius, f, selected, ms, ss, ms', ss') && Extends(ms, ss, ms', ss')
    ensures Usable(f, ms) <==> forall j :: |ss| <= j < |ss'| ==> WellPlaced(ms', ss'[j])
  {
    var lines, springs := MassesIn(f), SpringsIn(f);
    hide GoodLine, WellPlaced, MassesIn, SpringsIn, ReadSpring, ListsRebuilt, ReadMass;
    forall k | 0 <= k < |springs|
      ensures springs[k] in SpringsIn(f)
      ensures GoodLine(lines, ms, springs[k]) <==> WellPlaced(ms', ss'[|ss| + k])
    {
      GoodLineIsWellPlaced(lines, ms, ms', springs[k], selected);
    }
    forall j | |ss| <= j < |ss'| ensures GoodLine(lines, ms, springs[j - |ss|]) <==> WellPlaced(ms', ss'[j]) {
      assert ss'[|ss| + (j - |ss|)] == ss'[j];
    }
  }

  /** A file that defines every mass it names is usable whatever it is added to. */
  lemma {:induction false} ReferringIsUsable(f: seq<Record>, ms: seq<Mass>)
    requires Refers(f)
    ensures Usable(f, ms) && InBounds(f, |ms|)
  {
    hide MassesIn, SpringsIn, Position;
  }

  /** What can be loaded does not leave the arrays. */
  lemma {:induction false} UsableIsInBounds(f: seq<Record>, ms: seq<Mass>)
    requires Usable(f, ms)
    ensures InBounds(f, |ms|)
  {
    hide MassesIn, SpringsIn, EndOf, Met, Lands;
  }

  // ---------------------------------------------------------------------------
  // Saving, then loading
  // ---------------------------------------------------------------------------

  lemma {:induction false} MassesInSum(f: seq<Record>, g: seq<Record>)
    ensures MassesIn(f + g) == MassesIn(f) + MassesIn(g)
  {
    if g == [] {
      assert f + g == f;
    } else {
      assert (f + g)[..|f + g| - 1] == f + g[..|g| - 1];
      MassesInSum(f, g[..|g| - 1]);
    }
  }

  lemma {:induction false} SpringsInSum(f: seq<Record>, g: seq<Record>)
    ensures SpringsIn(f + g) == SpringsIn(f) + SpringsIn(g)
  {
    if g == [] {
      assert f + g == f;
    } else {
      assert (f + g)[..|f + g| - 1] == f + g[..|g| - 1];
      SpringsInSum(f, g[..|g| - 1]);
    }
  }

  ghost predicate OnlyMasses(f: seq<Record>) {
    forall i :: 0 <= i < |f| ==> f[i].MassRec?
  }

  ghost predicate OnlySprings(f: seq<Record>) {
    forall i :: 0 <= i < |f| ==> f[i].SpngRec?
  }

  lemma {:induction false} AllMassLines(f: seq<Record>)
    requires OnlyMasses(f)
    ensures MassesIn(f) == f && SpringsIn(f) == []
  {
    if f != [] {
      AllMassLines(f[..|f| - 1]);
      assert f == f[..|f| - 1] + [f[|f| - 1]];
    }
  }

  lemma {:induction false} AllSpringLines(f: seq<Record>)
    requires OnlySprings(f)
    ensures SpringsIn(f) == f && MassesIn(f) == []
  {
    if f != [] {
      AllSpringLines(f[..|f| - 1]);
      assert f == f[..|f| - 1] + [f[|f| - 1]];
    }
  }

  /** Lines that define no object. */
  ghost predicate NoObjects(f: seq<Record>) {
    forall i :: 0 <= i < |f| ==> f[i].CentRec? || f[i].PrefRec?
  }

  lemma {:induction false} NothingInHeader(f: seq<Record>)
    requires NoObjects(f)
    ensures MassesIn(f) == [] && SpringsIn(f) == []
  {
    if f != [] { NothingInHeader(f[..|f| - 1]); }
  }

  lemma {:induction false} HeaderHasNoObjects(centre: int, prefs: Preferences.Prefs)
    ensures NoObjects(Header(centre, prefs))
  {
    hide Preferences.Numbers, Preferences.Switches, Preferences.Forces, Preferences.Stepping, Preferences.Rest;
  }

  lemma {:induction false} PartsOfFile(c: seq<Record>, m: seq<Record>, s: seq<Record>)
    requires NoObjects(c) && OnlyMasses(m) && OnlySprings(s)
    ensures MassesIn(c + m + s) == m && SpringsIn(c + m + s) == s
  {
    NothingInHeader(c);
    AllMassLines(m);
    AllSpringLines(s);
    hide MassesIn, SpringsIn, NoObjects, OnlyMasses, OnlySprings;
    MassesInSum(c + m, s);
    MassesInSum(c, m);
    SpringsInSum(c + m, s);
    SpringsInSum(c, m);
  }

  lemma {:induction false} SavedLines(ms: seq<Mass>, ss: seq<Spring>, centre: int, prefs: Preferences.Prefs)
    ensures MassesIn(FileOf(ms, ss, centre, prefs)) == MassLines(ms, |ms|)
    ensures SpringsIn(FileOf(ms, ss, centre, prefs)) == SpringLines(ss, |ss|)
  {
    assert OnlyMasses(MassLines(ms, |ms|)) && OnlySprings(SpringLines(ss, |ss|));
    HeaderHasNoObjects(centre, prefs);
    hide MassesIn, SpringsIn, MassLines, SpringLines, Header, NoObjects, OnlyMasses, OnlySprings;
    PartsOfFile(Header(centre, prefs), MassLines(ms, |ms|), SpringLines(ss, |ss|));
  }

  // ---------------------------------------------------------------------------
  // The settings in a saved file
  // ---------------------------------------------------------------------------

  lemma {:induction false} SettingsInSum(f: seq<Record>, g: seq<Record>, c: int)
    ensures PrefsIn(f + g) == PrefsIn(f) + PrefsIn(g)
    ensures LastCentre(f + g, c) == LastCentre(g, LastCentre(f, c))
  {
    if g == [] {
      assert f + g == f;
    } else {
      assert (f + g)[..|f + g| - 1] == f + g[..|g| - 1];
      SettingsInSum(f, g[..|g| - 1], c);
    }
  }

  lemma {:induction false} SettingsInPrefs(ls: seq<Preferences.Line>, c: int)
    ensures PrefsIn(PrefRecs(ls)) == ls && LastCentre(PrefRecs(ls), c) == c
  {
    if ls != [] {
      SettingsInPrefs(ls[..|ls| - 1], c);
      assert PrefRecs(ls)[..|ls| - 1] == PrefRecs(ls[..|ls| - 1]);
    }
  }

  lemma {:induction false} NoSettingsInObjects(f: seq<Record>, c: int)
    requires forall i :: 0 <= i < |f| ==> f[i].MassRec? || f[i].SpngRec?
    ensures PrefsIn(f) == [] && LastCentre(f, c) == c
  {
    if f != [] { NoSettingsInObjects(f[..|f| - 1], c); }
  }

  lemma {:induction false} SettingsInHeader(centre: int, prefs: Preferences.Prefs, c: int)
    ensures PrefsIn(Header(centre, prefs)) == Preferences.Lines(prefs) && LastCentre(Header(centre, prefs), c) == centre
  {
    var a := Preferences.Numbers(prefs) + Preferences.Switches(prefs);
    var b := Preferences.Forces(prefs, Preferences.BF_NUM) + Preferences.Stepping(prefs) + Preferences.Rest(prefs);
    var m := [CentRec(centre)];
    assert m[..0] == [] && PrefsIn(m) == [] && forall d :: LastCentre(m, d) == centre;
    hide Preferences.Numbers, Preferences.Switches, Preferences.Forces, Preferences.Stepping, Preferences.Rest, PrefsIn,
      LastCentre;
    SettingsInPrefs(a, c);
    SettingsInPrefs(b, centre);
    SettingsInSum(PrefRecs(a), m, c);
    SettingsInSum(PrefRecs(a) + m, PrefRecs(b), c);
    assert a + [] == a;
    assert a + b == Preferences.Lines(prefs);
  }

  /** Saved, then loaded over the settings q: the centre comes back as it was written, and all
      settings but the modes of the forces. */
  lemma {:induction false} SettingsOfSave(ms: seq<Mass>, ss: seq<Spring>, centre: int, prefs: Preferences.Prefs,
                                          c: int, q: Preferences.Prefs)
    ensures var f := FileOf(ms, ss, centre, prefs);
            LastCentre(f, c) == centre && Preferences.ReadAll(q, PrefsIn(f)) == Preferences.InModesOf(prefs, q)
  {
    var h, m, s := Header(centre, prefs), MassLines(ms, |ms|), SpringLines(ss, |ss|);
    SettingsInHeader(centre, prefs, c);
    NoSettingsInObjects(m, centre);
    NoSettingsInObjects(s, centre);
    SettingsInSum(h + m, s, c);
    SettingsInSum(h, m, c);
    Preferences.LinesReadBack(prefs, q);
    hide PrefsIn, LastCentre, Header, MassLines, SpringLines, Preferences.ReadAll, Preferences.Lines,
      Preferences.InModesOf;
    assert PrefsIn(h) + [] + [] == PrefsIn(h);
  }

  /** The number of living masses before m: its place among the living. */
  function Rank(ms: seq<Mass>, m: nat): nat
    requires m <= |ms|
  {
    |Living(ms, m)|
  }

  lemma {:induction false} LivingAt(ms: seq<Mass>, k: nat, m: nat)
    requires m < k <= |ms| && ms[m].status.alive
    ensures Rank(ms, m) < |Living(ms, k)| && Living(ms, k)[Rank(ms, m)] == m
  {
    if m < k - 1 { LivingAt(ms, k - 1, m); }
  }

  lemma {:induction false} PositionIsRank(ms: seq<Mass>, m: nat)
    requires m < |ms| && ms[m].status.alive
    ensures Position(MassLines(ms, |ms|), m) == Rank(ms, m) < |MassLines(ms, |ms|)|
  {
    LivingAt(ms, |ms|, m);
    var lines, p := MassLines(ms, |ms|), Position(MassLines(ms, |ms|), m);
    assert lines[Rank(ms, m)].id == m;
  }

  /** A saved file refers only to masses it defines. */
  lemma {:induction false} SavedFileRefers(ms: seq<Mass>, ss: seq<Spring>, centre: int,
                                           prefs: Preferences.Prefs)
    requires Sound(ms, ss) && !ss[FAKE].status.alive
    ensures Refers(FileOf(ms, ss, centre, prefs))
  {
    SavedLines(ms, ss, centre, prefs);
    var lines, springs := MassLines(ms, |ms|), SpringLines(ss, |ss|);
    forall r | r in springs ensures Met(lines, r.m1) && Met(lines, r.m2) {
      var i :| 0 <= i < |springs| && springs[i] == r;
      var s := ss[LivingSprings(ss, |ss|)[i]];
      PositionIsRank(ms, s.m1);
      PositionIsRank(ms, s.m2);
    }
  }

  /** Mass m, as saved, reads back as itself. */
  predicate Survives(radius: Radius, m: Mass) {
    && (m.shape.mass > 0.0 || (m.shape.mass == 0.0 && !m.status.fixed))
    && m.shape.radius == radius(m.shape.mass)
  }

  /** m' is mass m read back: lists, selection and temporary fixing apart, the same. */
  predicate SameMass(m: Mass, m': Mass, selected: bool) {
    m' == m.(pars := m'.pars, status := Status(m.status.alive, selected, m.status.fixed, false))
  }

  /** s' is spring s read back, each end moved to the rank of its living mass. */
  predicate SameSpring(ms: seq<Mass>, s: Spring, s': Spring, base: nat, selected: bool) {
    && s.m1 < |ms| && ms[s.m1].status.alive && s.m2 < |ms| && ms[s.m2].status.alive
    && s' == s.(m1 := base + Rank(ms, s.m1), m2 := base + Rank(ms, s.m2),
                status := Status(true, selected, false, false))
  }

  /** The k-th mass added by loading the file of (ms, ss). */
  lemma {:induction false} LoadedMass(radius: Radius, ms: seq<Mass>, k: nat, selected: bool)
    requires k < |Living(ms, |ms|)| && Survives(radius, ms[Living(ms, |ms|)[k]])
    ensures SameMass(ms[Living(ms, |ms|)[k]], ReadMass(radius, MassLines(ms, |ms|)[k], selected), selected)
  {
    var i := Living(ms, |ms|)[k];
    MassSurvivesExactly(radius, i, ms[i]);
    SelectionOnly(radius, MassLine(i, ms[i]), selected);
  }

  /** The k-th spring added, for masses added from index `base` on. */
  lemma {:induction false} LoadedSpring(ms: seq<Mass>, ss: seq<Spring>, k: nat, base: nat, selected: bool)
    requires Sound(ms, ss) && !ss[FAKE].status.alive && k < |LivingSprings(ss, |ss|)|
    ensures SameSpring(ms, ss[LivingSprings(ss, |ss|)[k]],
                       ReadSpring(MassLines(ms, |ms|), base, SpringLines(ss, |ss|)[k], selected), base, selected)
  {
    var s := ss[LivingSprings(ss, |ss|)[k]];
    PositionIsRank(ms, s.m1);
    PositionIsRank(ms, s.m2);
  }

  /** Adding the file of (ms, ss) to a graph appends its living masses and springs in order,
      every spring end moved by the order-preserving renaming of the living masses. */
  lemma {:induction false} LoadOfSave(radius: Radius, ms: seq<Mass>, ss: seq<Spring>, centre: int,
                                      prefs: Preferences.Prefs, selected: bool,
                                      base: seq<Mass>, bs: seq<Spring>, ms': seq<Mass>, ss': seq<Spring>)
    requires Sound(ms, ss) && !ss[FAKE].status.alive
    requires forall i :: 0 <= i < |ms| && ms[i].status.alive ==> Survives(radius, ms[i])
    requires Loaded(radius, FileOf(ms, ss, centre, prefs), selected, base, bs, ms', ss')
    ensures |ms'| == |base| + |Living(ms, |ms|)| && |ss'| == |bs| + |LivingSprings(ss, |ss|)|
    ensures forall i :: |base| <= i < |ms'| ==>
              SameMass(ms[Living(ms, |ms|)[i - |base|]], ms'[i], selected) && ms'[i].pars == Incident(ss', i, |ss'|)
    ensures forall j :: |bs| <= j < |ss'| ==>
              SameSpring(ms, ss[LivingSprings(ss, |ss|)[j - |bs|]], ss'[j], |base|, selected)
  {
    SavedLines(ms, ss, centre, prefs);
    hide ListsInRange, Registered, Closed, Survives, ReadMass, ReadSpring, SameSpring, FileOf;
    forall i | |base| <= i < |ms'|
      ensures SameMass(ms[Living(ms, |ms|)[i - |base|]], ms'[i], selected) && ms'[i].pars == Incident(ss', i, |ss'|)
    {
      LoadedMass(radius, ms, i - |base|, selected);
    }
    forall j | |bs| <= j < |ss'|
      ensures SameSpring(ms, ss[LivingSprings(ss, |ss|)[j - |bs|]], ss'[j], |base|, selected)
    {
      LoadedSpring(ms, ss, j - |bs|, |base|, selected);
    }
  }

  lemma {:induction false} SelectionOnly(radius: Radius, r: Record, selected: bool)
    requires r.MassRec?
    ensures var m := ReadMass(radius, r, false);
            ReadMass(radius, r, selected) == m.(status := m.status.(selected := selected))
  {
  }

  /** The centre is saved as a plain index and not renamed: loaded into an empty system
      (whose masses start at 1) it names the same mass exactly when no slot between the
      fake mass and the centre is dead. */
  lemma {:induction false} CentreSurvivesExactly(ms: seq<Mass>, centre: nat)
    requires 0 < centre < |ms| && !ms[FAKE].status.alive
    ensures 1 + Rank(ms, centre) == centre <==> forall i :: 0 < i < centre ==> ms[i].status.alive
  {
    RankAtMost(ms, centre);
  }

  lemma {:induction false} RankAtMost(ms: seq<Mass>, k: nat)
    requires 0 < k <= |ms| && !ms[FAKE].status.alive
    ensures 1 + Rank(ms, k) <= k
    ensures 1 + Rank(ms, k) == k <==> forall i :: 0 < i < k ==> ms[i].status.alive
  {
    if k > 1 {
      RankAtMost(ms, k - 1);
    } else {
      assert Living(ms, 0) == [] && !ms[k - 1].status.alive;
    }
  }
}
