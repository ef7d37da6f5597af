/**
 * Two threads that move money between two accounts under Peterson's lock, as a machine whose steps
 * are single reads and writes of shared variables in any order of the threads. The two parts of
 * the waiting condition are read in separate steps. Values wrap around at 32 bits.
 */
module Peterson {
  const WORD := 0x1_0000_0000
  const HALF := 0x8000_0000

  /** A sum brought back into the range of a 32-bit integer. */
  function Wrap(x: int): (w: int)
    ensures -HALF <= w < HALF
  {
    (x + HALF) % WORD - HALF
  }

  datatype Place =
    | Clear       // own flag := 0
    | Raise       // own flag := 1
    | Defer       // will_wait := own number
    | ReadFlag    // other flag in the waiting condition
    | ReadTurn    // will_wait in the waiting condition
    | Load1 | Load2 | Store1 | Store2 | Count
    | Sum1 | Sum2 // the two reads of the loop test
    | Leave       // own flag := 0 after the loop
    | Done

  datatype Thread = Thread(at: Place, tmp1: int, tmp2: int, r: int, sum: int, count: int, counter: int)

  /** The first thread, the second, their flags, whose turn it is to wait (0 before anyone deferred), and the accounts. */
  datatype State = State(a: Thread, b: Thread, flagA: bool, flagB: bool, turn: int, accnt1: int, accnt2: int)

  function Fresh(n: int): Thread {
    Thread(Clear, 0, 0, 0, 0, n, 0)
  }

  function Initial(n: int): State {
    State(Fresh(n), Fresh(n), false, false, 0, 0, 0)
  }

  /** One step of the first thread; r is what rand returns if it is asked. */
  function StepFirst(s: State, r: int): State {
    var t := s.a;
    match t.at
    case Clear => s.(flagA := false, a := t.(at := Raise))
    case Raise => s.(flagA := true, a := t.(at := Defer))
    case Defer => s.(turn := 1, a := t.(at := ReadFlag))
    case ReadFlag => s.(a := t.(at := if s.flagB then ReadTurn else Load1))
    case ReadTurn => s.(a := t.(at := if s.turn == 1 then ReadFlag else Load1))
    case Load1 => s.(a := t.(at := Load2, tmp1 := s.accnt1))
    case Load2 => s.(a := t.(at := Store1, tmp2 := s.accnt2, r := r))
    case Store1 => s.(a := t.(at := Store2), accnt1 := Wrap(t.tmp1 + t.r))
    case Store2 => s.(a := t.(at := Count), accnt2 := Wrap(t.tmp2 - t.r))
    case Count => s.(a := t.(at := Sum1, counter := t.counter + 1))
    case Sum1 => s.(a := t.(at := Sum2, sum := s.accnt1))
    case Sum2 =>
      if Wrap(t.sum + s.accnt2) != 0 then s.(a := t.(at := Leave))
      else s.(a := t.(at := if t.count != 0 then Clear else Leave, count := t.count - 1))
    case Leave => s.(flagA := false, a := t.(at := Done))
    case Done => s
  }

  /** The same state with the names of the threads exchanged. */
  function Swap(s: State): State {
    State(s.b, s.a, s.flagB, s.flagA, if s.turn == 1 then 2 else if s.turn == 2 then 1 else s.turn, s.accnt1, s.accnt2)
  }

  /** A step of either thread; the second runs the same code under the other names. */
  function Next(s: State, first: bool, r: int): State {
    if first then StepFirst(s, r) else Swap(StepFirst(Swap(s), r))
  }

  datatype Choice = Choice(first: bool, r: int)

  function Run(n: int, choices: seq<Choice>): State {
    if choices == [] then Initial(n)
    else
      var c := choices[|choices| - 1];
      Next(Run(n, choices[..|choices| - 1]), c.first, c.r)
  }

  // ----- the invariant -----

  predicate Waiting(t: Thread) {
    t.at.ReadFlag? || t.at.ReadTurn?
  }

  /** Between leaving the waiting loop and the loop test. */
  predicate Critical(t: Thread) {
    t.at.Load1? || t.at.Load2? || t.at.Store1? || t.at.Store2? || t.at.Count? || t.at.Sum1? || t.at.Sum2?
  }

  /** Past the waiting loop with the flag still up. */
  predicate Holds(t: Thread, flag: bool) {
    Critical(t) || t.at.Leave? || (t.at.Clear? && flag)
  }

  /** What the first thread knows of the lock. */
  predicate LockHalf(s: State) {
    && (s.a.at.Raise? || s.a.at.Done? ==> !s.flagA)
    && (!s.a.at.Raise? && !s.a.at.Done? && !s.a.at.Clear? ==> s.flagA)
    && (Waiting(s.a) || Holds(s.a, s.flagA) ==> s.turn == 1 || s.turn == 2)
    && (Holds(s.a, s.flagA) && Waiting(s.b) ==> s.turn == 2)
    && !(Holds(s.a, s.flagA) && Holds(s.b, s.flagB))
  }

  /** What the first thread has in hand while it changes the accounts. */
  predicate WorkHalf(s: State) {
    var t := s.a;
    && (t.at.Load2? ==> t.tmp1 == s.accnt1)
    && (t.at.Store1? ==> t.tmp1 == s.accnt1 && t.tmp2 == s.accnt2)
    && (t.at.Store2? ==> s.accnt1 == Wrap(t.tmp1 + t.r) && t.tmp2 == s.accnt2 && Wrap(t.tmp1 + t.tmp2) == 0)
    && (t.at.Sum2? ==> t.sum == s.accnt1)
  }

  predicate Balanced(s: State) {
    s.a.at.Store2? || s.b.at.Store2? || Wrap(s.accnt1 + s.accnt2) == 0
  }

  /** How far the first thread has counted. */
  predicate CountHalf(s: State, n: int) {
    var t := s.a;
    if t.at.Leave? || t.at.Done? then t.counter == n + 1
    else t.count + t.counter == (if t.at.Sum1? || t.at.Sum2? then n + 1 else n) && t.count >= 0
  }

  predicate Inv(s: State, n: int) {
    && LockHalf(s) && LockHalf(Swap(s)) && WorkHalf(s) && WorkHalf(Swap(s)) && Balanced(s)
    && CountHalf(s, n) && CountHalf(Swap(s), n) && 0 <= s.turn <= 2
  }

  lemma SwapTwice(s: State)
    ensures Swap(Swap(s)) == s
  {
  }

  lemma InvSwaps(s: State, n: int)
    requires Inv(s, n)
    ensures Inv(Swap(s), n)
  {
    SwapTwice(s);
  }

  /** Wrapping is adding some whole number of words. */
  lemma WrapShift(x: int) returns (k: int)
    ensures Wrap(x) == x + k * WORD
  {
    k := -((x + HALF) / WORD);
  }

  lemma WrapSame(x: int, k: int)
    ensures Wrap(x + k * WORD) == Wrap(x)
  {
  }

  /** Money moved between the accounts leaves their sum, wrapped at every store, the same. */
  lemma TransferBalances(x: int, y: int, r: int)
    requires Wrap(x + y) == 0
    ensures Wrap(Wrap(x + r) + Wrap(y - r)) == 0
  {
    var j := WrapShift(x + r);
    var k := WrapShift(y - r);
    assert Wrap(x + r) + Wrap(y - r) == x + y + (j + k) * WORD;
    WrapSame(x + y, j + k);
  }

  lemma LockStep(s: State, r: int)
    requires LockHalf(s) && LockHalf(Swap(s)) && 0 <= s.turn <= 2
    ensures LockHalf(StepFirst(s, r)) && LockHalf(Swap(StepFirst(s, r))) && 0 <= StepFirst(s, r).turn <= 2
  {
  }

  lemma WorkStep(s: State, r: int, n: int)
    requires Inv(s, n)
    ensures WorkHalf(StepFirst(s, r)) && Balanced(StepFirst(s, r))
  {
    hide CountHalf;
    if s.a.at.Store2? {
      TransferBalances(s.a.tmp1, s.a.tmp2, s.a.r);
    }
  }

  /** The accounts change only while the other thread has nothing of them in hand. */
  lemma RivalWorks(s: State, r: int, n: int)
    requires Inv(s, n)
    ensures WorkHalf(Swap(StepFirst(s, r)))
  {
    hide CountHalf, Balanced;
  }

  lemma CountStep(s: State, r: int, n: int)
    requires CountHalf(s, n) && (s.a.at.Sum2? ==> Wrap(s.a.sum + s.accnt2) == 0)
    ensures CountHalf(StepFirst(s, r), n)
  {
    hide Swap;
  }

  lemma RivalCounts(s: State, r: int, n: int)
    requires CountHalf(Swap(s), n)
    ensures CountHalf(Swap(StepFirst(s, r)), n)
  {
    assert Swap(s).a == Swap(StepFirst(s, r)).a;
    hide StepFirst;
  }

  /** The loop test always finds the accounts balanced. */
  lemma SumIsZero(s: State, n: int)
    requires Inv(s, n) && s.a.at.Sum2?
    ensures Wrap(s.a.sum + s.accnt2) == 0
  {
  }

  lemma FirstKeeps(s: State, r: int, n: int)
    requires Inv(s, n)
    ensures Inv(StepFirst(s, r), n)
  {
    hide LockHalf, WorkHalf, CountHalf, Balanced, StepFirst;
    if s.a.at.Sum2? { SumIsZero(s, n); }
    LockStep(s, r);
    WorkStep(s, r, n);
    RivalWorks(s, r, n);
    CountStep(s, r, n);
    RivalCounts(s, r, n);
  }

  lemma NextKeeps(s: State, first: bool, r: int, n: int)
    requires Inv(s, n)
    ensures Inv(Next(s, first, r), n)
  {
    hide Inv, StepFirst;
    if first {
      FirstKeeps(s, r, n);
    } else {
      InvSwaps(s, n);
      FirstKeeps(Swap(s), r, n);
      InvSwaps(StepFirst(Swap(s), r), n);
    }
  }

  lemma {:induction false} RunKeeps(n: nat, choices: seq<Choice>)
    ensures Inv(Run(n, choices), n)
  {
    hide Next;
    if choices != [] {
      hide Inv;
      var c := choices[|choices| - 1];
      RunKeeps(n, choices[..|choices| - 1]);
      NextKeeps(Run(n, choices[..|choices| - 1]), c.first, c.r, n);
    }
  }

  // ----- what follows for every run -----

  /** The threads are never both between the lock and the loop test. */
  lemma MutualExclusion(n: nat, choices: seq<Choice>)
    ensures var s := Run(n, choices); !(Critical(s.a) && Critical(s.b))
  {
    RunKeeps(n, choices);
  }

  /** At every loop test, of either thread, the accounts add up to zero. */
  lemma BalancedAtTest(n: nat, choices: seq<Choice>)
    ensures var s := Run(n, choices);
            && (s.a.at.Sum2? ==> Wrap(s.a.sum + s.accnt2) == 0 && s.a.sum == s.accnt1)
            && (s.b.at.Sum2? ==> Wrap(s.b.sum + s.accnt2) == 0 && s.b.sum == s.accnt1)
  {
    hide Run;
    var s := Run(n, choices);
    RunKeeps(n, choices);
    InvSwaps(s, n);
    if s.a.at.Sum2? {
      SumIsZero(s, n);
    }
    if s.b.at.Sum2? {
      SumIsZero(Swap(s), n);
    }
  }

  /** A thread that has finished has gone through its loop count + 1 times. */
  lemma CountsAll(n: nat, choices: seq<Choice>)
    ensures var s := Run(n, choices);
            (s.a.at.Done? ==> s.a.counter == n + 1) && (s.b.at.Done? ==> s.b.counter == n + 1)
  {
    RunKeeps(n, choices);
  }

  /** Waiting with both parts of the condition true: the loop cannot be left as things stand. */
  predicate BlockedFirst(s: State) {
    Waiting(s.a) && s.flagB && s.turn == 1
  }

  /** Never are both blocked, and who blocks another is neither blocked nor finished. */
  lemma NoDeadlock(n: nat, choices: seq<Choice>)
    ensures var s := Run(n, choices);
            && !(BlockedFirst(s) && BlockedFirst(Swap(s)))
            && (BlockedFirst(s) ==> !s.b.at.Done? && !BlockedFirst(Swap(s)))
            && (BlockedFirst(Swap(s)) ==> !s.a.at.Done?)
  {
    RunKeeps(n, choices);
  }

  /** The first or the second thread. */
  function Mine(s: State, first: bool): Thread {
    if first then s.a else s.b
  }

  predicate Blocked(s: State, first: bool) {
    if first then BlockedFirst(s) else BlockedFirst(Swap(s))
  }

  /** In every run, a waiting thread of either name that is not blocked gets through in at most two steps of its own. */
  lemma UnblockedEnters(n: nat, choices: seq<Choice>, first: bool, r: int, r': int)
    requires var s := Run(n, choices); Waiting(Mine(s, first)) && !Blocked(s, first)
    ensures var t := Next(Run(n, choices), first, r);
            Critical(Mine(t, first)) || Critical(Mine(Next(t, first, r'), first))
  {
  }

  // ----- overtaking -----

  /** How often a thread gets past its waiting loop in a stretch of a run. */
  function Entries(s: State, choices: seq<Choice>, first: bool): nat
    decreases |choices|
  {
    if choices == [] then 0
    else
      var t := Next(s, choices[0].first, choices[0].r);
      (if Waiting(Mine(s, first)) && Critical(Mine(t, first)) then 1 else 0) + Entries(t, choices[1..], first)
  }

  /** A thread waits all through a stretch of a run. */
  predicate WaitsThrough(s: State, choices: seq<Choice>, first: bool)
    decreases |choices|
  {
    Waiting(Mine(s, first)) && (choices == [] || WaitsThrough(Next(s, choices[0].first, choices[0].r), choices[1..], first))
  }

  /** How often the other thread may still get in while this one waits: once, unless it has deferred since. */
  function MayEnter(s: State, first: bool): nat {
    if Waiting(Mine(s, !first)) && s.turn == (if first then 1 else 2) then 1 else 0
  }

  lemma FirstEntryStep(s: State, c: Choice, n: int)
    requires Inv(s, n) && Waiting(s.a) && Waiting(Next(s, c.first, c.r).a)
    ensures var t := Next(s, c.first, c.r);
            (if Waiting(s.b) && Critical(t.b) then 1 else 0) + MayEnter(t, true) <= MayEnter(s, true)
  {
  }

  lemma EntryStep(s: State, c: Choice, n: int, first: bool)
    requires Inv(s, n) && Waiting(Mine(s, first)) && Waiting(Mine(Next(s, c.first, c.r), first))
    ensures var t := Next(s, c.first, c.r);
            (if Waiting(Mine(s, !first)) && Critical(Mine(t, !first)) then 1 else 0) + MayEnter(t, first) <= MayEnter(s, first)
  {
    hide Inv, StepFirst, Waiting, Critical;
    if first {
      FirstEntryStep(s, c, n);
    } else {
      InvSwaps(s, n);
      SwapTwice(s);
      assert Swap(Next(s, c.first, c.r)) == Next(Swap(s), !c.first, c.r);
      FirstEntryStep(Swap(s), Choice(!c.first, c.r), n);
    }
  }

  lemma {:induction false} OvertakenFrom(s: State, choices: seq<Choice>, n: int, first: bool)
    requires Inv(s, n) && WaitsThrough(s, choices, first)
    ensures Entries(s, choices, !first) <= MayEnter(s, first)
    decreases |choices|
  {
    hide Inv, Next, Critical, MayEnter;
    if choices != [] {
      var c := choices[0];
      EntryStep(s, c, n, first);
      NextKeeps(s, c.first, c.r, n);
      OvertakenFrom(Next(s, c.first, c.r), choices[1..], n, first);
    }
  }

  /**
   * In every run, while a thread of either name waits through a stretch, the other gets in at most
   * once, and not at all if it is not waiting or has deferred when the stretch begins.
   */
  lemma OvertakenOnce(n: nat, before: seq<Choice>, choices: seq<Choice>, first: bool)
    requires WaitsThrough(Run(n, before), choices, first)
    ensures Entries(Run(n, before), choices, !first) <= MayEnter(Run(n, before), first) <= 1
  {
    hide Run, Next, Inv;
    RunKeeps(n, before);
    OvertakenFrom(Run(n, before), choices, n, first);
  }

  // ----- no update is lost -----

  /** Where the thread stands that the last choice lets go. */
  function ActsAt(n: int, choices: seq<Choice>): Place
    requires choices != []
  {
    Mine(Run(n, choices[..|choices| - 1]), choices[|choices| - 1].first).at
  }

  /** What rand returned to a thread when it last asked. */
  function Drawn(n: int, choices: seq<Choice>, first: bool): int {
    if choices == [] then 0
    else
      var c := choices[|choices| - 1];
      if c.first == first && ActsAt(n, choices) == Load2 then c.r else Drawn(n, choices[..|choices| - 1], first)
  }

  /** The sum of what the threads had drawn whenever one of them came by the given place. */
  function SumAt(n: int, choices: seq<Choice>, at: Place): int {
    if choices == [] then 0
    else
      var c := choices[|choices| - 1];
      SumAt(n, choices[..|choices| - 1], at) + if ActsAt(n, choices) == at then Drawn(n, choices, c.first) else 0
  }

  /** How often a thread has drawn. */
  function Draws(n: int, choices: seq<Choice>, first: bool): nat {
    if choices == [] then 0
    else
      Draws(n, choices[..|choices| - 1], first) +
      if choices[|choices| - 1].first == first && ActsAt(n, choices) == Load2 then 1 else 0
  }

  predicate AboutToStore(t: Thread) {
    t.at.Store1? || t.at.Store2?
  }

  /** One step, seen from the accounts and from the thread that takes it. */
  lemma FirstEffect(s: State, r: int, n: int)
    requires Inv(s, n)
    ensures var t, m, m' := StepFirst(s, r), s.a, StepFirst(s, r).a;
            && t.b == s.b
            && t.accnt1 == (if m.at.Store1? then Wrap(s.accnt1 + m.r) else s.accnt1)
            && t.accnt2 == (if m.at.Store2? then Wrap(s.accnt2 - m.r) else s.accnt2)
            && m'.r == (if m.at.Load2? then r else m.r) && (m'.at.Store1? <==> m.at.Load2?) && (m'.at.Store2? <==> m.at.Store1?)
            && (m'.at.Count? <==> m.at.Store2?) && m'.counter == m.counter + if m.at.Count? then 1 else 0
  {
    hide LockHalf, CountHalf, Balanced, Wrap, Swap;
  }

  lemma StepEffect(s: State, first: bool, r: int, n: int)
    requires Inv(s, n)
    ensures var t, m, m' := Next(s, first, r), Mine(s, first), Mine(Next(s, first, r), first);
            && Mine(t, !first) == Mine(s, !first)
            && t.accnt1 == (if m.at.Store1? then Wrap(s.accnt1 + m.r) else s.accnt1)
            && t.accnt2 == (if m.at.Store2? then Wrap(s.accnt2 - m.r) else s.accnt2)
            && m'.r == (if m.at.Load2? then r else m.r) && (m'.at.Store1? <==> m.at.Load2?) && (m'.at.Store2? <==> m.at.Store1?)
            && (m'.at.Count? <==> m.at.Store2?) && m'.counter == m.counter + if m.at.Count? then 1 else 0
  {
    hide Inv, StepFirst, Wrap;
    if first {
      FirstEffect(s, r, n);
    } else {
      InvSwaps(s, n);
      FirstEffect(Swap(s), r, n);
    }
  }

  lemma WrapPlus(x: int, y: int)
    ensures Wrap(Wrap(x) + y) == Wrap(x + y)
  {
    var k := WrapShift(x);
    WrapSame(x + y, k);
    assert Wrap(x) + y == x + y + k * WORD;
  }

  /** A thread that is about to store holds what it drew. */
  lemma {:induction false} HoldsItsDraw(n: nat, choices: seq<Choice>, first: bool)
    ensures var t := Mine(Run(n, choices), first); AboutToStore(t) ==> t.r == Drawn(n, choices, first)
  {
    if choices != [] {
      hide Inv, Next;
      var c, before := choices[|choices| - 1], choices[..|choices| - 1];
      HoldsItsDraw(n, before, first);
      RunKeeps(n, before);
      StepEffect(Run(n, before), c.first, c.r, n);
    }
  }

  lemma SumAtStore(n: nat, choices: seq<Choice>, at: Place)
    requires choices != [] && (at == Store1 || at == Store2)
    ensures var before, m := choices[..|choices| - 1], Mine(Run(n, choices[..|choices| - 1]), choices[|choices| - 1].first);
            SumAt(n, choices, at) == SumAt(n, before, at) + if m.at == at then m.r else 0
  {
    hide Run;
    HoldsItsDraw(n, choices[..|choices| - 1], choices[|choices| - 1].first);
  }

  lemma StoresAdd(s: State, t: State, m: Thread, x: int, y: int)
    requires s.accnt1 == Wrap(x) && t.accnt1 == if m.at == Store1 then Wrap(s.accnt1 + m.r) else s.accnt1
    requires s.accnt2 == Wrap(-y) && t.accnt2 == if m.at == Store2 then Wrap(s.accnt2 - m.r) else s.accnt2
    ensures t.accnt1 == Wrap(x + if m.at == Store1 then m.r else 0)
    ensures t.accnt2 == Wrap(-(y + if m.at == Store2 then m.r else 0))
  {
    hide Wrap;
    WrapPlus(x, m.r);
    WrapPlus(-y, -m.r);
    assert -y + -m.r == -(y + m.r);
  }

  lemma RunEffect(n: nat, choices: seq<Choice>)
    requires choices != []
    ensures var c, s, t := choices[|choices| - 1], Run(n, choices[..|choices| - 1]), Run(n, choices);
            && t.accnt1 == (if Mine(s, c.first).at == Store1 then Wrap(s.accnt1 + Mine(s, c.first).r) else s.accnt1)
            && t.accnt2 == (if Mine(s, c.first).at == Store2 then Wrap(s.accnt2 - Mine(s, c.first).r) else s.accnt2)
  {
    hide Inv, Next, Wrap, Mine;
    var c, before := choices[|choices| - 1], choices[..|choices| - 1];
    RunKeeps(n, before);
    StepEffect(Run(n, before), c.first, c.r, n);
  }

  lemma NothingStored(n: nat)
    ensures Run(n, []).accnt1 == Wrap(SumAt(n, [], Store1)) && Run(n, []).accnt2 == Wrap(-SumAt(n, [], Store2))
  {
  }

  /** The accounts hold what has been stored. */
  lemma {:induction false} RunIsRecorded(n: nat, choices: seq<Choice>)
    ensures Run(n, choices).accnt1 == Wrap(SumAt(n, choices, Store1)) && Run(n, choices).accnt2 == Wrap(-SumAt(n, choices, Store2))
  {
    hide *;
    if choices == [] {
      NothingStored(n);
    } else {
      var c, before := choices[|choices| - 1], choices[..|choices| - 1];
      RunIsRecorded(n, before);
      RunEffect(n, choices);
      SumAtStore(n, choices, Store1);
      SumAtStore(n, choices, Store2);
      StoresAdd(Run(n, before), Run(n, choices), Mine(Run(n, before), c.first), SumAt(n, before, Store1), SumAt(n, before, Store2));
    }
  }

  /** Whatever is drawn is stored in the first account and then in the second, by the thread that drew it. */
  lemma {:induction false} DrawnIsStored(n: nat, choices: seq<Choice>)
    ensures var s := Run(n, choices);
            && SumAt(n, choices, Load2) == SumAt(n, choices, Store1)
                 + (if s.a.at.Store1? then Drawn(n, choices, true) else 0) + (if s.b.at.Store1? then Drawn(n, choices, false) else 0)
            && SumAt(n, choices, Store1) == SumAt(n, choices, Store2)
                 + (if s.a.at.Store2? then Drawn(n, choices, true) else 0) + (if s.b.at.Store2? then Drawn(n, choices, false) else 0)
  {
    if choices != [] {
      var c, before := choices[|choices| - 1], choices[..|choices| - 1];
      DrawnIsStored(n, before);
      RunKeeps(n, before);
      StepEffect(Run(n, before), c.first, c.r, n);
      hide Inv, Next;
    }
  }

  lemma {:induction false} DrawsAreCounted(n: nat, choices: seq<Choice>, first: bool)
    ensures var t := Mine(Run(n, choices), first);
            Draws(n, choices, first) == t.counter + if AboutToStore(t) || t.at.Count? then 1 else 0
  {
    if choices != [] {
      var c, before := choices[|choices| - 1], choices[..|choices| - 1];
      DrawsAreCounted(n, before, first);
      RunKeeps(n, before);
      StepEffect(Run(n, before), c.first, c.r, n);
      hide Inv, Next;
    }
  }

  /**
   * No update is lost, whatever the interleaving. The first account is the wrapped sum of the numbers
   * drawn and since stored there, the second the wrapped negative of those stored there. While nobody is
   * about to store, that is the sum of all numbers drawn so far, and a finished thread has drawn count + 1 of them.
   */
  lemma NoUpdateIsLost(n: nat, choices: seq<Choice>)
    ensures var s := Run(n, choices);
            && s.accnt1 == Wrap(SumAt(n, choices, Store1)) && s.accnt2 == Wrap(-SumAt(n, choices, Store2))
            && (!AboutToStore(s.a) && !AboutToStore(s.b) ==>
                  s.accnt1 == Wrap(SumAt(n, choices, Load2)) && s.accnt2 == Wrap(-SumAt(n, choices, Load2)))
            && (s.a.at.Done? ==> Draws(n, choices, true) == n + 1) && (s.b.at.Done? ==> Draws(n, choices, false) == n + 1)
  {
    hide Run, SumAt, Draws, Wrap, Drawn;
    RunIsRecorded(n, choices);
    DrawnIsStored(n, choices);
    DrawsAreCounted(n, choices, true);
    DrawsAreCounted(n, choices, false);
    CountsAll(n, choices);
  }
}
