/** Overlapping notices (KeepNoticeDialog.java): every notice thread adds its time in one critical section,
    sleeps, and subtracts it in another; the shared sum decides whether the dialog is shown. */
module KeepNotice {

  const MAX_INT := 0x7fff_ffff

  /** Java's int arithmetic. */
  function Wrap(x: int): int {
    (x + 0x8000_0000) % 0x1_0000_0000 - 0x8000_0000
  }

  /** `pending` holds the times of the threads between their two sections, in the order they came; a
      thread may leave from any place, so every interleaving is a run. */
  datatype State = State(mstime: int, visible: bool, pending: seq<int>)

  const START := State(0, false, [])

  datatype Event = Enter(time: int) | Leave(k: nat)

  function Without(s: seq<int>, k: nat): seq<int>
    requires k < |s|
  {
    s[..k] + s[k + 1..]
  }

  /** A thread with a negative time never gets to its second section: the sleep throws. */
  predicate Enabled(s: State, e: Event) {
    e.Leave? ==> e.k < |s.pending| && s.pending[e.k] >= 0
  }

  function Step(s: State, e: Event): State {
    if !Enabled(s, e) then s
    else
      match e
      case Enter(time) => State(Wrap(s.mstime + time), true, s.pending + [time])
      case Leave(k) =>
        var left := Wrap(s.mstime - s.pending[k]);
        State(if left <= 0 then 0 else left, s.visible && left > 0, Without(s.pending, k))
  }

  function Run(s: State, es: seq<Event>): State
    decreases es
  {
    if es == [] then s else Run(Step(s, es[0]), es[1..])
  }

  function Sum(s: seq<int>): int {
    if s == [] then 0 else s[0] + Sum(s[1..])
  }

  lemma {:induction false} SumOfTwo(a: seq<int>, b: seq<int>)
    ensures Sum(a + b) == Sum(a) + Sum(b)
  {
    if a == [] {
      assert a + b == b;
    } else {
      SumOfTwo(a[1..], b);
      assert (a + b)[1..] == a[1..] + b;
    }
  }

  lemma SumWithout(s: seq<int>, k: nat)
    requires k < |s|
    ensures Sum(Without(s, k)) == Sum(s) - s[k]
  {
    SumOfTwo(s[..k], s[k + 1..]);
    SumOfTwo(s[..k], s[k..]);
    assert s[..k] + s[k..] == s;
    assert s[k..][1..] == s[k + 1..];
  }

  predicate AllPositive(s: seq<int>) {
    forall i :: 0 <= i < |s| ==> s[i] > 0
  }

  lemma {:induction false} SumPositive(s: seq<int>)
    requires AllPositive(s)
    ensures Sum(s) >= 0 && (Sum(s) == 0 <==> s == [])
  {
    if s == [] {
    } else {
      SumPositive(s[1..]);
    }
  }

  /** The sum is what is pending, and the dialog is shown exactly while something is. */
  ghost predicate Right(s: State) {
    && s.mstime == Sum(s.pending)
    && (s.visible <==> s.pending != [])
  }

  /** Times are positive and together stay within the range of an int. */
  ghost predicate Fits(s: State, e: Event) {
    e.Enter? ==> e.time > 0 && Sum(s.pending) + e.time <= MAX_INT
  }

  ghost predicate FitsRun(s: State, es: seq<Event>)
    decreases es
  {
    es == [] || (Fits(s, es[0]) && FitsRun(Step(s, es[0]), es[1..]))
  }

  ghost predicate Tame(s: State) {
    Right(s) && AllPositive(s.pending) && Sum(s.pending) <= MAX_INT
  }

  lemma StepKeepsTame(s: State, e: Event)
    requires Tame(s) && Fits(s, e)
    ensures Tame(Step(s, e))
  {
    if Enabled(s, e) {
      match e
      case Enter(time) =>
        SumOfTwo(s.pending, [time]);
        assert Sum([time]) == time;
        SumPositive(s.pending);
      case Leave(k) =>
        SumWithout(s.pending, k);
        SumPositive(Without(s.pending, k));
        SumPositive(s.pending);
    }
  }

  /** In every interleaving the sum is that of the pending times, so the dialog is shown exactly while a
      notice is pending and disappears with the last. */
  lemma {:induction false} RightInEveryRun(s: State, es: seq<Event>)
    requires Tame(s) && FitsRun(s, es)
    ensures Tame(Run(s, es))
    decreases es
  {
    if es == [] {
    } else {
      StepKeepsTame(s, es[0]);
      RightInEveryRun(Step(s, es[0]), es[1..]);
    }
  }

  /** Outside those bounds: a thread that leaves a right state leaves a right one exactly when it was the
      last, or what is left still reads as a positive int of the right size. */
  lemma LeaveIsRightExactly(s: State, k: nat)
    requires s.mstime == Wrap(Sum(s.pending)) && s.visible && Enabled(s, Leave(k))
    ensures var rest := Without(s.pending, k); var t := Step(s, Leave(k));
      && t.pending == rest
      && (t.visible <==> Wrap(Sum(rest)) > 0)
      && (Right(t) <==> (rest == [] || 0 < Sum(rest) <= MAX_INT))
  {
    SumWithout(s.pending, k);
    WrapMinus(Sum(s.pending), s.pending[k]);
    WrapInRange(Sum(Without(s.pending, k)));
  }

  // ----- Exactly when a run goes right

  ghost predicate RightAlways(s: State, es: seq<Event>)
    decreases es
  {
    Right(s) && (es == [] || RightAlways(Step(s, es[0]), es[1..]))
  }

  predicate InInt(x: int) {
    -0x8000_0000 <= x <= MAX_INT
  }

  /** A notice that comes keeps the sum of the pending times within an int, and one that goes is the last or
      leaves a positive sum behind. */
  ghost predicate Keeps(s: State, e: Event) {
    match e
    case Enter(time) => InInt(Sum(s.pending) + time)
    case Leave(k) =>
      Enabled(s, e) ==> var rest := Without(s.pending, k); rest == [] || 0 < Sum(rest) <= MAX_INT
  }

  ghost predicate KeepsAlways(s: State, es: seq<Event>)
    decreases es
  {
    es == [] || (Keeps(s, es[0]) && KeepsAlways(Step(s, es[0]), es[1..]))
  }

  lemma StepIsRightExactly(s: State, e: Event)
    requires Right(s) && InInt(Sum(s.pending))
    ensures var t := Step(s, e); (Right(t) <==> Keeps(s, e)) && (Right(t) ==> InInt(Sum(t.pending)))
  {
    match e
    case Enter(time) =>
      SumOfTwo(s.pending, [time]);
      assert Sum([time]) == time;
      WrapInRange(Sum(s.pending) + time);
    case Leave(k) =>
      if Enabled(s, e) {
        WrapInRange(Sum(s.pending));
        LeaveIsRightExactly(s, k);
      }
  }

  /** Whatever the times, overflowing, zero or negative: from a right state every state of a run is right if
      and only if every step of it keeps to that. */
  lemma {:induction false} RunIsRightExactly(s: State, es: seq<Event>)
    requires Right(s) && InInt(Sum(s.pending))
    ensures RightAlways(s, es) <==> KeepsAlways(s, es)
    decreases es
  {
    if es == [] {
    } else {
      StepIsRightExactly(s, es[0]);
      if Right(Step(s, es[0])) {
        RunIsRightExactly(Step(s, es[0]), es[1..]);
      }
    }
  }

  lemma WrapMinus(x: int, y: int)
    ensures Wrap(Wrap(x) - y) == Wrap(x - y)
  {
    var q := (x + 0x8000_0000) / 0x1_0000_0000;
    assert Wrap(x) - y + 0x8000_0000 == (x - y + 0x8000_0000) - q * 0x1_0000_0000;
  }

  lemma WrapInRange(x: int)
    ensures Wrap(x) == x <==> -0x8000_0000 <= x <= MAX_INT
  {
  }

  /** Two notices without duration: the first to end hides the dialog while the second is still pending. */
  lemma ZeroTimesHideTooEarly()
    ensures var s := Run(START, [Enter(0), Enter(0), Leave(0)]); s.pending == [0] && !s.visible
  {
    var es := [Enter(0), Enter(0), Leave(0)];
    var s1 := Step(START, es[0]);
    var s2 := Step(s1, es[1]);
    var s3 := Step(s2, es[2]);
    assert es[1..] == [Enter(0), Leave(0)] && es[1..][1..] == [Leave(0)] && es[1..][1..][1..] == [];
    assert Run(s2, [Leave(0)]) == Run(s3, []);
  }

  class KeepNoticeDialog {
    var mstime: int
    var visible: bool
    ghost var pending: seq<int>

    ghost function View(): State
      reads this
    {
      State(mstime, visible, pending)
    }

    constructor ()
      ensures View() == START
    {
      mstime, visible, pending := 0, false, [];
    }

    /** The first critical section of `nofading`. */
    method Show(time: int)
      modifies this
      ensures View() == Step(old(View()), Enter(time))
    {
      visible := true;
      mstime := Wrap(mstime + time);
      pending := pending + [time];
    }

    /** The second one, in the thread whose time stands at `k`. */
    method End(t: int, ghost k: nat)
      requires k < |pending| && pending[k] == t && t >= 0
      modifies this
      ensures View() == Step(old(View()), Leave(k))
    {
      mstime := Wrap(mstime - t);
      if mstime <= 0 {
        visible := false;
        mstime := 0;
      }
      pending := Without(pending, k);
    }
  }
}
