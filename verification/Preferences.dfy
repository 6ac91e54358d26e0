/**
 The simulator's settings and their lines in a file: what saving writes and what reading the
 lines one after the other makes of the settings there are.
 */
module Preferences {

  const BF_NUM := 4

  /** A global force: `mode` is negative when it is off. */
  datatype Force = Force(mode: int, val: real, misc: real)

  datatype RawPrefs = RawPrefs(
    mass: real, rest: real, ks: real, kd: real, fixMass: bool, showSpring: bool, forces: seq<Force>,
    visc: real, stick: real, dt: real, prec: real, adaptive: bool, gsnap: real, gridSnap: bool,
    top: bool, left: bool, right: bool, bottom: bool)
  {
    predicate Valid() {
      |forces| == BF_NUM
    }
  }

  type Prefs = p: RawPrefs | p.Valid()
    witness RawPrefs(0.0, 0.0, 0.0, 0.0, false, false, seq(BF_NUM, _ => Force(-1, 0.0, 0.0)),
                     0.0, 0.0, 0.0, 0.0, false, 0.0, false, false, false, false, false)

  /** Lines of one number, of one switch, and the others, by their commands. */
  datatype Number = Cmas | Elas | Kspr | Kdmp | Visc | Stck | Step | Prec

  datatype Switch = Fixm | Shws | Adpt

  datatype Line =
    | NumberLine(number: Number, value: real)
    | SwitchLine(switch: Switch, temp: int)
    | FrceLine(which: int, temp: int, val: real, misc: real)
    | GsnpLine(value: real, temp: int)
    | WallLine(wt: int, wl: int, wr: int, wb: int)

  function Flag(b: bool): int {
    if b then 1 else 0
  }

  // ---------------------------------------------------------------------------
  // Reading
  // ---------------------------------------------------------------------------

  function ReadNumber(p: Prefs, which: Number, value: real): Prefs {
    match which
    case Cmas => p.(mass := value)
    case Elas => p.(rest := value)
    case Kspr => p.(ks := value)
    case Kdmp => p.(kd := value)
    case Visc => p.(visc := value)
    case Stck => p.(stick := value)
    case Step => p.(dt := value)
    case Prec => p.(prec := value)
  }

  function ReadSwitch(p: Prefs, which: Switch, on: bool): Prefs {
    match which
    case Fixm => p.(fixMass := on)
    case Shws => p.(showSpring := on)
    case Adpt => p.(adaptive := on)
  }

  /** The strength and the parameter of a force; the button that would set its mode does nothing. */
  function ReadForce(p: Prefs, which: int, val: real, misc: real): Prefs {
    if 0 <= which < BF_NUM then p.(forces := p.forces[which := p.forces[which].(val := val, misc := misc)]) else p
  }

  function Read(p: Prefs, l: Line): Prefs {
    match l
    case NumberLine(which, value) => ReadNumber(p, which, value)
    case SwitchLine(which, temp) => ReadSwitch(p, which, temp != 0)
    case FrceLine(which, _, val, misc) => ReadForce(p, which, val, misc)
    case GsnpLine(value, temp) => p.(gsnap := value, gridSnap := temp != 0)
    case WallLine(wt, wl, wr, wb) => p.(top := wt != 0, left := wl != 0, right := wr != 0, bottom := wb != 0)
  }

  /** Lines read one after the other. */
  function ReadAll(p: Prefs, ls: seq<Line>): Prefs {
    if ls == [] then p else Read(ReadAll(p, ls[..|ls| - 1]), ls[|ls| - 1])
  }

  lemma {:induction false} ReadOneMore(p: Prefs, ls: seq<Line>, l: Line)
    ensures ReadAll(p, ls + [l]) == Read(ReadAll(p, ls), l)
  {
    assert (ls + [l])[..|ls|] == ls;
  }

  lemma {:induction false} ReadSum(p: Prefs, a: seq<Line>, b: seq<Line>)
    ensures ReadAll(p, a + b) == ReadAll(ReadAll(p, a), b)
  {
    hide Read;
    if b == [] {
      assert a + b == a;
    } else {
      var n := |b| - 1;
      ReadSum(p, a, b[..n]);
      assert (a + b)[..|a + b| - 1] == a + b[..n];
    }
  }

  // ---------------------------------------------------------------------------
  // Writing
  // ---------------------------------------------------------------------------

  function Numbers(p: Prefs): seq<Line> {
    [NumberLine(Cmas, p.mass), NumberLine(Elas, p.rest), NumberLine(Kspr, p.ks), NumberLine(Kdmp, p.kd)]
  }

  function Switches(p: Prefs): seq<Line> {
    [SwitchLine(Fixm, Flag(p.fixMass)), SwitchLine(Shws, Flag(p.showSpring))]
  }

  function ForceLine(p: Prefs, i: nat): Line
    requires i < BF_NUM
  {
    FrceLine(i, if p.forces[i].mode >= 0 then 1 else 0, p.forces[i].val, p.forces[i].misc)
  }

  function Forces(p: Prefs, n: nat): (ls: seq<Line>)
    requires n <= BF_NUM
  {
    seq(n, i requires 0 <= i < n => ForceLine(p, i))
  }

  function Stepping(p: Prefs): seq<Line> {
    [NumberLine(Visc, p.visc), NumberLine(Stck, p.stick), NumberLine(Step, p.dt), NumberLine(Prec, p.prec)]
  }

  function Rest(p: Prefs): seq<Line> {
    [SwitchLine(Adpt, Flag(p.adaptive)), GsnpLine(p.gsnap, Flag(p.gridSnap)),
     WallLine(Flag(p.top), Flag(p.left), Flag(p.right), Flag(p.bottom))]
  }

  /** The lines of the settings, in order; the centre's comes after the switches. */
  function Lines(p: Prefs): seq<Line> {
    Numbers(p) + Switches(p) + Forces(p, BF_NUM) + Stepping(p) + Rest(p)
  }

  /** The lines, one by one: every setting under its own command; of a force its number, 1 exactly
      when it is on, its strength and its parameter. */
  lemma {:induction false} LinesOneByOne(p: Prefs)
    ensures var ls := Lines(p);
            && |ls| == 17
            && ls[0] == NumberLine(Cmas, p.mass) && ls[1] == NumberLine(Elas, p.rest)
            && ls[2] == NumberLine(Kspr, p.ks) && ls[3] == NumberLine(Kdmp, p.kd)
            && ls[4] == SwitchLine(Fixm, if p.fixMass then 1 else 0)
            && ls[5] == SwitchLine(Shws, if p.showSpring then 1 else 0)
            && (forall i :: 0 <= i < 4 ==>
                  ls[6 + i] == FrceLine(i, if p.forces[i].mode >= 0 then 1 else 0, p.forces[i].val, p.forces[i].misc))
            && ls[10] == NumberLine(Visc, p.visc) && ls[11] == NumberLine(Stck, p.stick)
            && ls[12] == NumberLine(Step, p.dt) && ls[13] == NumberLine(Prec, p.prec)
            && ls[14] == SwitchLine(Adpt, if p.adaptive then 1 else 0)
            && ls[15] == GsnpLine(p.gsnap, if p.gridSnap then 1 else 0)
            && ls[16] == WallLine(if p.top then 1 else 0, if p.left then 1 else 0, if p.right then 1 else 0,
                                  if p.bottom then 1 else 0)
  {
    forall i | 0 <= i < 4 ensures Lines(p)[6 + i] == Forces(p, BF_NUM)[i] {
    }
  }

  // ---------------------------------------------------------------------------
  // Writing, then reading
  // ---------------------------------------------------------------------------

  /** The forces of p in the modes of q. */
  function InModesOf(p: Prefs, q: Prefs): (r: Prefs)
    ensures forall i :: 0 <= i < BF_NUM ==> r.forces[i] == p.forces[i].(mode := q.forces[i].mode)
    ensures r == p.(forces := r.forces)
  {
    p.(forces := seq(BF_NUM, i requires 0 <= i < BF_NUM => p.forces[i].(mode := q.forces[i].mode)))
  }

  lemma {:induction false} FewLines(q: Prefs, ls: seq<Line>)
    ensures |ls| == 2 ==> ReadAll(q, ls) == Read(Read(q, ls[0]), ls[1])
    ensures |ls| == 3 ==> ReadAll(q, ls) == Read(Read(Read(q, ls[0]), ls[1]), ls[2])
    ensures |ls| == 4 ==> ReadAll(q, ls) == Read(Read(Read(Read(q, ls[0]), ls[1]), ls[2]), ls[3])
  {
    hide Read;
    if 2 <= |ls| <= 4 {
      assert ls[..0] == [];
      ReadOneMore(q, ls[..0], ls[0]);
      ReadOneMore(q, ls[..1], ls[1]);
      assert ls[..0] + [ls[0]] == ls[..1] && ls[..1] + [ls[1]] == ls[..2];
      if |ls| > 2 {
        ReadOneMore(q, ls[..2], ls[2]);
        assert ls[..2] + [ls[2]] == ls[..3];
      }
      if |ls| > 3 {
        ReadOneMore(q, ls[..3], ls[3]);
        assert ls[..3] + [ls[3]] == ls[..4];
      }
      assert ls[..|ls|] == ls;
    }
  }

  lemma {:induction false} NumbersReadBack(p: Prefs, q: Prefs)
    ensures ReadAll(q, Numbers(p)) == q.(mass := p.mass, rest := p.rest, ks := p.ks, kd := p.kd)
  {
    FewLines(q, Numbers(p));
    hide ReadAll;
  }

  lemma {:induction false} SwitchesReadBack(p: Prefs, q: Prefs)
    ensures ReadAll(q, Switches(p)) == q.(fixMass := p.fixMass, showSpring := p.showSpring)
  {
    FewLines(q, Switches(p));
    hide ReadAll;
  }

  /** r is q with the first n forces of p, in the modes of q. */
  ghost predicate ForcesRead(p: Prefs, q: Prefs, n: nat, r: Prefs) {
    && r == q.(forces := r.forces)
    && forall i :: 0 <= i < BF_NUM ==>
         r.forces[i] == if i < n then p.forces[i].(mode := q.forces[i].mode) else q.forces[i]
  }

  lemma {:induction false} ForcesReadNext(p: Prefs, q: Prefs, n: nat, r: Prefs)
    requires n < BF_NUM && ForcesRead(p, q, n, r)
    ensures ForcesRead(p, q, n + 1, Read(r, ForceLine(p, n)))
  {
  }

  lemma {:induction false} ForcesReadBack(p: Prefs, q: Prefs, n: nat)
    requires n <= BF_NUM
    ensures ForcesRead(p, q, n, ReadAll(q, Forces(p, n)))
  {
    if n > 0 {
      ForcesReadBack(p, q, n - 1);
      assert Forces(p, n) == Forces(p, n - 1) + [ForceLine(p, n - 1)];
      hide ReadAll, Forces, ForcesRead, ForceLine, Read;
      ReadOneMore(q, Forces(p, n - 1), ForceLine(p, n - 1));
      ForcesReadNext(p, q, n - 1, ReadAll(q, Forces(p, n - 1)));
    }
  }

  lemma {:induction false} SteppingReadsBack(p: Prefs, q: Prefs)
    ensures ReadAll(q, Stepping(p)) == q.(visc := p.visc, stick := p.stick, dt := p.dt, prec := p.prec)
  {
    FewLines(q, Stepping(p));
    hide ReadAll;
  }

  lemma {:induction false} RestReadsBack(p: Prefs, q: Prefs)
    ensures ReadAll(q, Rest(p)) == q.(adaptive := p.adaptive, gsnap := p.gsnap, gridSnap := p.gridSnap,
                                      top := p.top, left := p.left, right := p.right, bottom := p.bottom)
  {
    FewLines(q, Rest(p));
    hide ReadAll;
  }

  /** Written and read over any settings q, all come back but the modes of the forces. */
  lemma {:induction false} LinesReadBack(p: Prefs, q: Prefs)
    ensures ReadAll(q, Lines(p)) == InModesOf(p, q)
  {
    hide ReadAll, Numbers, Switches, Forces, Stepping, Rest;
    var a, b, c, d, e := Numbers(p), Switches(p), Forces(p, BF_NUM), Stepping(p), Rest(p);
    ReadSum(q, a + b + c + d, e);
    ReadSum(q, a + b + c, d);
    ReadSum(q, a + b, c);
    ReadSum(q, a, b);
    var q1 := ReadAll(q, a);
    NumbersReadBack(p, q);
    var q2 := ReadAll(q1, b);
    SwitchesReadBack(p, q1);
    var q3 := ReadAll(q2, c);
    ForcesReadBack(p, q2, BF_NUM);
    var q4 := ReadAll(q3, d);
    SteppingReadsBack(p, q3);
    RestReadsBack(p, q4);
    assert InModesOf(p, q).forces == q3.forces;
  }

  /** The settings survive exactly when every force is in the saved mode already. */
  lemma {:induction false} PrefsSurviveExactly(p: Prefs, q: Prefs)
    ensures ReadAll(q, Lines(p)) == p <==> forall i :: 0 <= i < BF_NUM ==> q.forces[i].mode == p.forces[i].mode
  {
    LinesReadBack(p, q);
    hide ReadAll, Lines;
    var r := InModesOf(p, q);
    if forall i :: 0 <= i < BF_NUM ==> q.forces[i].mode == p.forces[i].mode {
      assert r.forces == p.forces;
    }
    if r == p {
      forall i | 0 <= i < BF_NUM ensures q.forces[i].mode == p.forces[i].mode {
        assert r.forces[i].mode == q.forces[i].mode;
      }
    }
  }
}
