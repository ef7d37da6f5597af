/**
 * The Go-Back-N protocol as a machine: a sender with a window of datagrams, a receiver that accepts
 * only the expected number, and two channels that deliver in order but may lose or damage anything.
 * The number of sequence numbers (n) and the most datagrams outstanding (w) are kept apart; the
 * source has 10 for both. Remainders are written as its MOD macro expands.
 */
module GoBackN {
  datatype Datagram = Datagram(seqn: nat, payload: char)

  datatype Sender = Sender(window: seq<Datagram>, current: nat, lastAcked: nat, active: int)

  datatype Receiver = Receiver(expected: nat, lastSentAck: nat)

  // ----- what each operation does -----

  function Added(n: nat, s: Sender, b: char): Sender
    requires n > 0
  {
    if s.current < |s.window| then
      Sender(s.window[s.current := Datagram(s.current, b)], ((s.current + 1) % n + n) % n, s.lastAcked, s.active + 1)
    else s
  }

  /** How many datagrams an acknowledgement takes out of the window. */
  function Deleting(n: nat, s: Sender, ack: nat): nat
    requires n > 0
  {
    (ack - s.lastAcked % n + n) % n
  }

  function Removed(n: nat, s: Sender, ack: nat): Sender
    requires n > 0
  {
    Sender(s.window, s.current, ack, s.active - Deleting(n, s, ack))
  }

  function Place(n: nat, s: Sender, i: nat): nat
    requires n > 0
  {
    (s.lastAcked + i % n + n) % n
  }

  /** The datagrams sent again after a timeout, oldest first. */
  function Resent(n: nat, s: Sender): seq<Datagram>
    requires n > 0 && |s.window| == n
  {
    if s.active <= 0 then [] else seq(s.active, i requires 0 <= i < s.active => s.window[Place(n, s, i + 1)])
  }

  function WindowEmpty(n: nat, s: Sender): bool
    requires n > 0
  {
    s.lastAcked == (s.current - 1 % n + n) % n
  }

  /** Whether a datagram that arrives, damaged or not, is accepted. */
  predicate Valid(n: nat, r: Receiver, d: Datagram, damaged: bool) {
    !damaged && d.seqn < n && d.seqn == r.expected
  }

  /** The receiver after a datagram; it then sends its lastSentAck. */
  function Received(n: nat, r: Receiver, d: Datagram, damaged: bool): Receiver
    requires n > 0
  {
    if Valid(n, r, d, damaged) then Receiver((r.expected + 1 % n + n) % n, d.seqn) else r
  }

  // ----- the machine -----

  /** Both sides and both channels, with the history: bytes given, bytes accepted, datagrams taken out of the window. */
  datatype System = System(sender: Sender, receiver: Receiver, data: seq<Datagram>, acks: seq<nat>,
                           given: seq<char>, accepted: seq<char>, removed: nat)

  datatype Step =
    | Add(b: char)
    | Timeout
    | Receive(damaged: bool)
    | TakeAck
    | LoseData(i: nat)
    | LoseAck(i: nat)

  function Initial(n: nat): System
    requires n > 0
  {
    System(Sender(seq(n, _ => Datagram(0, ' ')), 0, (0 - 1 % n + n) % n, 0), Receiver(0, 0), [], [], [], [], 0)
  }

  predicate Enabled(w: nat, s: System, step: Step) {
    match step
    case Add(_) => s.sender.active < w
    case Timeout => true
    case Receive(_) => s.data != []
    case TakeAck => s.acks != []
    case LoseData(i) => i < |s.data|
    case LoseAck(i) => i < |s.acks|
  }

  function Apply(n: nat, w: nat, s: System, step: Step): System
    requires n > 0 && |s.sender.window| == n && Enabled(w, s, step)
  {
    match step
    case Add(b) =>
      s.(sender := Added(n, s.sender, b), data := s.data + [Datagram(s.sender.current, b)], given := s.given + [b])
    case Timeout =>
      s.(data := s.data + Resent(n, s.sender))
    case Receive(damaged) =>
      var r := Received(n, s.receiver, s.data[0], damaged);
      s.(receiver := r, data := s.data[1..], acks := s.acks + [r.lastSentAck],
         accepted := if Valid(n, s.receiver, s.data[0], damaged) then s.accepted + [s.data[0].payload] else s.accepted)
    case TakeAck =>
      s.(sender := Removed(n, s.sender, s.acks[0]), acks := s.acks[1..],
         removed := s.removed + Deleting(n, s.sender, s.acks[0]))
    case LoseData(i) => s.(data := s.data[..i] + s.data[i + 1..])
    case LoseAck(i) => s.(acks := s.acks[..i] + s.acks[i + 1..])
  }

  /** What is accepted is a prefix of what was given, and only accepted bytes leave the window. */
  predicate Safe(s: System) {
    s.accepted <= s.given && s.removed <= |s.accepted|
  }

  // ----- remainders -----

  lemma Multiples(n: nat, d: int)
    ensures d >= 1 ==> n * d >= n
    ensures d <= -1 ==> n * d <= -(n as int)
  {
    if d >= 1 {
      assert n * d == n * (d - 1) + n;
    } else if d <= -1 {
      assert n * d == n * (d + 1) - n;
    }
  }

  lemma ModOf(q: int, x: int, n: nat)
    requires n > 0 && 0 <= x < n
    ensures (q * n + x) % n == x
  {
    var y := q * n + x;
    var d := y / n - q;
    assert n * d == x - y % n by {
      assert y == n * (y / n) + y % n;
    }
    Multiples(n, d);
  }

  lemma ModMove(x: int, y: int, n: nat)
    requires n > 0
    ensures (x % n + y) % n == (x + y) % n
  {
    var q, z := x / n, (x % n + y) % n;
    var p := (x % n + y) / n;
    assert x == n * q + x % n && x % n + y == n * p + z;
    assert x + y == (q + p) * n + z;
    ModOf(q + p, z, n);
  }

  lemma ModRound(x: int, n: nat)
    requires n > 0
    ensures (x + n) % n == x % n
  {
    assert n % n == 0 by {
      ModOf(1, 0, n);
    }
    var q := x / n;
    assert x + n == (q + 1) * n + x % n;
    ModOf(q + 1, x % n, n);
  }

  /** Two numbers less than n apart with the same remainder are the same. */
  lemma ModSame(x: int, y: int, n: nat)
    requires n > 0 && x % n == y % n && -(n as int) < x - y < n
    ensures x == y
  {
    var d := x / n - y / n;
    assert x - y == n * d;
    Multiples(n, d);
  }

  lemma ModSmall(x: int, n: nat)
    requires 0 <= x < n
    ensures x % n == x
  {
  }

  lemma OneMod(n: nat)
    requires n >= 2
    ensures 1 % n == 1
  {
  }

  // ----- the invariant -----

  /** The sender's fields in terms of how many bytes were given and how many datagrams removed. */
  predicate SenderAt(n: nat, s: Sender, given: seq<char>, base: nat)
    requires n > 0
  {
    && base <= |given|
    && |s.window| == n
    && s.current == |given| % n
    && s.lastAcked == (base - 1) % n
    && s.active == |given| - base
    && forall k :: base <= k < |given| ==> s.window[k % n] == Datagram(k % n, given[k])
  }

  predicate ReceiverAt(n: nat, r: Receiver, count: nat)
    requires n > 0
  {
    r.expected == count % n && r.lastSentAck == if count == 0 then 0 else (count - 1) % n
  }

  /**
   * Every datagram in the channel is some byte given; the receiver has not gone a whole round past
   * it, and neither will it by accepting what is ahead in the channel.
   */
  predicate DataAt(n: nat, data: seq<Datagram>, given: seq<char>, count: nat, at: seq<nat>)
    requires n > 0
  {
    && |at| == |data|
    && (forall i :: 0 <= i < |at| ==> at[i] < |given| && data[i] == Datagram(at[i] % n, given[at[i]]))
    && (forall i :: 0 <= i < |at| ==> count < at[i] + n)
    && forall i, j :: 0 <= i < j < |at| ==> at[i] + 1 < at[j] + n
  }

  /** Every acknowledgement in the channel is for a byte accepted, or for none yet, in order. */
  predicate AcksAt(n: nat, acks: seq<nat>, base: nat, count: nat, at: seq<nat>)
    requires n > 0
  {
    && |at| == |acks|
    && (forall i :: 0 <= i < |at| ==> acks[i] == at[i] % n)
    && (forall i :: 0 <= i < |at| ==> base <= at[i] + 1 && at[i] <= if count == 0 then 0 else count - 1)
    && forall i, j :: 0 <= i < j < |at| ==> at[i] <= at[j]
  }

  ghost predicate Inv(n: nat, w: nat, s: System)
    requires n > 0
  {
    && s.removed <= |s.accepted| <= |s.given| <= s.removed + w
    && s.accepted <= s.given
    && SenderAt(n, s.sender, s.given, s.removed)
    && ReceiverAt(n, s.receiver, |s.accepted|)
    && (exists at :: DataAt(n, s.data, s.given, |s.accepted|, at))
    && (exists at :: AcksAt(n, s.acks, s.removed, |s.accepted|, at))
    && (s.acks != [] ==> s.given != [])
  }

  lemma InitialSender(n: nat)
    requires n >= 2
    ensures SenderAt(n, Initial(n).sender, [], 0) && ReceiverAt(n, Initial(n).receiver, 0)
  {
    OneMod(n);
    ModSmall(0, n);
    ModRound(-1, n);
  }

  lemma InitialHolds(n: nat, w: nat)
    requires n >= 2
    ensures Inv(n, w, Initial(n))
  {
    hide SenderAt;
    var s := Initial(n);
    InitialSender(n);
    assert DataAt(n, s.data, s.given, 0, []);
    assert AcksAt(n, s.acks, 0, 0, []);
  }

  // ----- every step keeps it -----

  /** The number after next, as the source computes it. */
  lemma NextNumber(n: nat, x: nat)
    requires n > 0
    ensures ((x % n + 1) % n + n) % n == (x + 1) % n
  {
    ModMove(x, 1, n);
    ModRound((x + 1) % n, n);
    ModSmall((x + 1) % n, n);
  }

  lemma AddedAt(n: nat, s: Sender, given: seq<char>, base: nat, b: char)
    requires n > 0 && SenderAt(n, s, given, base) && |given| - base < n
    ensures SenderAt(n, Added(n, s, b), given + [b], base)
    ensures s.current == |given| % n
  {
    var t, more := Added(n, s, b), given + [b];
    NextNumber(n, |given|);
    forall k | base <= k < |more| ensures t.window[k % n] == Datagram(k % n, more[k]) {
      if k < |given| {
        if k % n == |given| % n {
          ModSame(k, |given|, n);
        }
      }
    }
  }

  lemma DataGains(n: nat, data: seq<Datagram>, given: seq<char>, count: nat, at: seq<nat>, b: char)
    requires n > 0 && DataAt(n, data, given, count, at) && count <= |given|
    ensures DataAt(n, data + [Datagram(|given| % n, b)], given + [b], count, at + [|given|])
  {
    var more := at + [|given|];
    assert forall i :: 0 <= i < |at| ==> more[i] == at[i];
  }

  lemma ResentAt(n: nat, s: Sender, given: seq<char>, base: nat, i: nat)
    requires n > 0 && SenderAt(n, s, given, base) && i < |given| - base && i + 1 < n
    ensures |Resent(n, s)| == |given| - base && Resent(n, s)[i] == Datagram((base + i) % n, given[base + i])
  {
    ModSmall(i + 1, n);
    ModMove(base - 1, i + 1, n);
    ModRound((base - 1) % n + (i + 1), n);
  }

  lemma DataResent(n: nat, data: seq<Datagram>, s: Sender, given: seq<char>, base: nat, count: nat, at: seq<nat>) returns (more: seq<nat>)
    requires n > 0 && SenderAt(n, s, given, base) && |given| - base < n && base <= count <= |given|
    requires DataAt(n, data, given, count, at)
    ensures DataAt(n, data + Resent(n, s), given, count, more)
    ensures |more| == |at| + |given| - base && forall i :: |at| <= i < |more| ==> more[i] == base + i - |at|
  {
    var m := |given| - base;
    more := at + seq(m, i requires 0 <= i < m => base + i);
    forall i | 0 <= i < m ensures |Resent(n, s)| == m && Resent(n, s)[i] == Datagram((base + i) % n, given[base + i]) {
      ResentAt(n, s, given, base, i);
    }
  }

  lemma DataTail(n: nat, data: seq<Datagram>, given: seq<char>, count: nat, at: seq<nat>)
    requires n > 0 && data != [] && DataAt(n, data, given, count, at)
    ensures DataAt(n, data[1..], given, count, at[1..])
    ensures at[0] == count ==> DataAt(n, data[1..], given, count + 1, at[1..])
  {
  }

  lemma AcksGain(n: nat, acks: seq<nat>, base: nat, count: nat, at: seq<nat>, after: nat)
    requires n > 0 && AcksAt(n, acks, base, count, at) && count <= after && base <= count
    ensures var a: nat := if after == 0 then 0 else after - 1; AcksAt(n, acks + [a % n], base, after, at + [a])
  {
  }

  lemma AcksTail(n: nat, acks: seq<nat>, base: nat, count: nat, at: seq<nat>)
    requires n > 0 && acks != [] && AcksAt(n, acks, base, count, at)
    ensures AcksAt(n, acks[1..], at[0] + 1, count, at[1..])
  {
  }

  /** An acknowledgement takes out exactly the datagrams up to the byte it is for. */
  lemma DeletingUpTo(n: nat, s: Sender, given: seq<char>, base: nat, a: nat)
    requires n > 0 && SenderAt(n, s, given, base) && base <= a + 1 <= base + n - 1 && a < |given|
    ensures Deleting(n, s, a % n) == a + 1 - base
    ensures SenderAt(n, Removed(n, s, a % n), given, a + 1)
  {
    AckDistance(a, base - 1, n);
  }

  /** The distance between two numbers less than n apart, from their remainders. */
  lemma AckDistance(a: nat, l: int, n: nat)
    requires n > 0 && 0 <= a - l < n
    ensures (a % n - (l % n) % n + n) % n == a - l
  {
    var x := l % n;
    ModSmall(x, n);
    ModMove(a, n - x, n);
    ModRound(a - x, n);
    DistanceOf(a, l, n);
  }

  lemma DistanceOf(a: nat, l: int, n: nat)
    requires n > 0 && 0 <= a - l < n
    ensures (a - l % n) % n == a - l
  {
    assert a - l % n == (l / n) * n + (a - l) by {
      assert l == n * (l / n) + l % n;
    }
    ModOf(l / n, a - l, n);
  }

  lemma DropData(n: nat, data: seq<Datagram>, given: seq<char>, count: nat, at: seq<nat>, i: nat)
    requires n > 0 && DataAt(n, data, given, count, at) && i < |data|
    ensures DataAt(n, data[..i] + data[i + 1..], given, count, at[..i] + at[i + 1..])
  {
    var d, t := data[..i] + data[i + 1..], at[..i] + at[i + 1..];
    assert forall k :: 0 <= k < |t| ==> t[k] == (if k < i then at[k] else at[k + 1]);
    assert forall k :: 0 <= k < |d| ==> d[k] == (if k < i then data[k] else data[k + 1]);
  }

  lemma DropAck(n: nat, acks: seq<nat>, base: nat, count: nat, at: seq<nat>, i: nat)
    requires n > 0 && AcksAt(n, acks, base, count, at) && i < |acks|
    ensures AcksAt(n, acks[..i] + acks[i + 1..], base, count, at[..i] + at[i + 1..])
  {
    var d, t := acks[..i] + acks[i + 1..], at[..i] + at[i + 1..];
    assert forall k :: 0 <= k < |t| ==> t[k] == (if k < i then at[k] else at[k + 1]);
    assert forall k :: 0 <= k < |d| ==> d[k] == (if k < i then acks[k] else acks[k + 1]);
  }

  /** Of the datagrams that can be in the channel, only the byte wanted next has the number expected. */
  lemma ValidIsNext(n: nat, w: nat, s: System, damaged: bool, at: seq<nat>)
    requires n > w && Inv(n, w, s) && s.data != [] && DataAt(n, s.data, s.given, |s.accepted|, at)
    ensures Valid(n, s.receiver, s.data[0], damaged) <==> !damaged && at[0] == |s.accepted|
    ensures Valid(n, s.receiver, s.data[0], damaged) ==> s.data[0].payload == s.given[|s.accepted|]
  {
    if at[0] % n == |s.accepted| % n {
      ModSame(at[0], |s.accepted|, n);
    }
  }

  lemma ReceiveKeeps(n: nat, w: nat, s: System, damaged: bool)
    requires n > w && n >= 2 && Inv(n, w, s) && s.data != []
    ensures Inv(n, w, Apply(n, w, s, Receive(damaged)))
  {
    hide SenderAt, DataAt, AcksAt, ReceiverAt, Valid, Received;
    SenderLength(n, s.sender, s.given, s.removed);
    var t := Apply(n, w, s, Receive(damaged));
    var count := |s.accepted|;
    var at :| DataAt(n, s.data, s.given, count, at);
    var back :| AcksAt(n, s.acks, s.removed, count, back);
    ValidIsNext(n, w, s, damaged, at);
    DataTail(n, s.data, s.given, count, at);
    DataLength(n, s.data, s.given, count, at);
    AcksGain(n, s.acks, s.removed, count, back, |t.accepted|);
    ReceivedAt(n, s.receiver, s.data[0], damaged, count);
    if Valid(n, s.receiver, s.data[0], damaged) {
      assert t.accepted == s.given[..count + 1];
    }
    assert DataAt(n, t.data, t.given, |t.accepted|, at[1..]);
  }

  /** What the receiver then acknowledges is the last byte it has accepted, or byte 0 before that. */
  lemma ReceivedAt(n: nat, r: Receiver, d: Datagram, damaged: bool, count: nat)
    requires n >= 2 && ReceiverAt(n, r, count)
    ensures var after := if Valid(n, r, d, damaged) then count + 1 else count;
            && ReceiverAt(n, Received(n, r, d, damaged), after)
            && Received(n, r, d, damaged).lastSentAck == (if after == 0 then 0 else after - 1) % n
  {
    if Valid(n, r, d, damaged) {
      OneMod(n);
      ModMove(count, 1, n);
      ModRound(count % n + 1, n);
    } else {
      ModSmall(0, n);
    }
  }

  lemma DataLength(n: nat, data: seq<Datagram>, given: seq<char>, count: nat, at: seq<nat>)
    requires n > 0 && DataAt(n, data, given, count, at) && data != []
    ensures |at| == |data| && at[0] < |given|
    ensures data[0].seqn == at[0] % n
  {
  }

  lemma TakeAckKeeps(n: nat, w: nat, s: System)
    requires n > w && n >= 2 && Inv(n, w, s) && s.acks != [] && s.accepted != []
    ensures Inv(n, w, Apply(n, w, s, TakeAck))
  {
    hide SenderAt, DataAt;
    var back :| AcksAt(n, s.acks, s.removed, |s.accepted|, back);
    DeletingUpTo(n, s.sender, s.given, s.removed, back[0]);
    AcksTail(n, s.acks, s.removed, |s.accepted|, back);
  }

  /** An acknowledgement that comes before anything was accepted takes an unaccepted byte out of the window. */
  lemma EarlyAckHarms(n: nat, w: nat, s: System)
    requires n > w && n >= 2 && Inv(n, w, s) && s.acks != [] && s.accepted == []
    ensures !Safe(Apply(n, w, s, TakeAck))
  {
    var back :| AcksAt(n, s.acks, s.removed, 0, back);
    assert back[0] == 0;
    DeletingUpTo(n, s.sender, s.given, 0, 0);
  }

  lemma AddKeeps(n: nat, w: nat, s: System, b: char)
    requires n > w && n >= 2 && Inv(n, w, s) && s.sender.active < w
    ensures Inv(n, w, Apply(n, w, s, Add(b)))
  {
    hide DataAt, AcksAt, ReceiverAt;
    var at :| DataAt(n, s.data, s.given, |s.accepted|, at);
    AddedAt(n, s.sender, s.given, s.removed, b);
    DataGains(n, s.data, s.given, |s.accepted|, at, b);
  }

  lemma TimeoutKeeps(n: nat, w: nat, s: System)
    requires n > w && n >= 2 && Inv(n, w, s)
    ensures Inv(n, w, Apply(n, w, s, Timeout))
  {
    hide DataAt, AcksAt, ReceiverAt, Resent;
    var at :| DataAt(n, s.data, s.given, |s.accepted|, at);
    var more := DataResent(n, s.data, s.sender, s.given, s.removed, |s.accepted|, at);
  }

  lemma LoseDataKeeps(n: nat, w: nat, s: System, i: nat)
    requires n > w && n >= 2 && Inv(n, w, s) && i < |s.data|
    ensures Inv(n, w, Apply(n, w, s, LoseData(i)))
  {
    hide SenderAt, AcksAt, ReceiverAt;
    SenderLength(n, s.sender, s.given, s.removed);
    var at :| DataAt(n, s.data, s.given, |s.accepted|, at);
    DropData(n, s.data, s.given, |s.accepted|, at, i);
    assert DataAt(n, Apply(n, w, s, LoseData(i)).data, s.given, |s.accepted|, at[..i] + at[i + 1..]) by {
      hide DataAt;
    }
  }

  lemma LoseAckKeeps(n: nat, w: nat, s: System, i: nat)
    requires n > w && n >= 2 && Inv(n, w, s) && i < |s.acks|
    ensures Inv(n, w, Apply(n, w, s, LoseAck(i)))
  {
    hide SenderAt, DataAt, ReceiverAt;
    SenderLength(n, s.sender, s.given, s.removed);
    var at :| AcksAt(n, s.acks, s.removed, |s.accepted|, at);
    DropAck(n, s.acks, s.removed, |s.accepted|, at, i);
    assert AcksAt(n, Apply(n, w, s, LoseAck(i)).acks, s.removed, |s.accepted|, at[..i] + at[i + 1..]) by {
      hide AcksAt;
    }
  }

  /** Whatever happens next, short of an acknowledgement before the first acceptance, the invariant is kept. */
  lemma StepKeeps(n: nat, w: nat, s: System, step: Step)
    requires n > w && n >= 2 && Inv(n, w, s) && Enabled(w, s, step)
    requires step.TakeAck? ==> s.accepted != []
    ensures Inv(n, w, Apply(n, w, s, step))
  {
    hide Apply, SenderAt, DataAt, AcksAt, ReceiverAt;
    SenderLength(n, s.sender, s.given, s.removed);
    match step
    case Add(b) => AddKeeps(n, w, s, b);
    case Timeout => TimeoutKeeps(n, w, s);
    case Receive(damaged) => ReceiveKeeps(n, w, s, damaged);
    case TakeAck => TakeAckKeeps(n, w, s);
    case LoseData(i) => LoseDataKeeps(n, w, s, i);
    case LoseAck(i) => LoseAckKeeps(n, w, s, i);
  }

  lemma SenderLength(n: nat, s: Sender, given: seq<char>, base: nat)
    requires n > 0 && SenderAt(n, s, given, base)
    ensures |s.window| == n && s.active == |given| - base
  {
  }

  // ----- runs -----

  /** The system after a run; a step that cannot happen leaves the rest of the run out. */
  function After(n: nat, w: nat, steps: seq<Step>): System
    requires n > 0
  {
    if steps == [] then Initial(n)
    else
      var s := After(n, w, steps[..|steps| - 1]);
      var step := steps[|steps| - 1];
      if |s.sender.window| == n && Enabled(w, s, step) then Apply(n, w, s, step) else s
  }

  /** Every step can happen where it does. */
  predicate IsRun(n: nat, w: nat, steps: seq<Step>)
    requires n > 0
  {
    forall k :: 0 <= k < |steps| ==> Enabled(w, After(n, w, steps[..k]), steps[k])
  }

  /** Step k takes an acknowledgement although nothing has been accepted. */
  predicate EarlyAt(n: nat, w: nat, steps: seq<Step>, k: nat)
    requires n > 0 && k < |steps|
  {
    steps[k].TakeAck? && After(n, w, steps[..k]).accepted == []
  }

  lemma {:induction false} RunKeeps(n: nat, w: nat, steps: seq<Step>)
    requires n > w && n >= 2 && IsRun(n, w, steps)
    requires forall k :: 0 <= k < |steps| ==> !EarlyAt(n, w, steps, k)
    ensures Inv(n, w, After(n, w, steps))
    decreases |steps|
  {
    hide Apply, Inv, Enabled, Initial;
    if steps == [] {
      InitialHolds(n, w);
    } else {
      var front := steps[..|steps| - 1];
      forall k | 0 <= k < |front| ensures Enabled(w, After(n, w, front[..k]), front[k]) && !EarlyAt(n, w, front, k) {
        assert front[..k] == steps[..k] && !EarlyAt(n, w, steps, k);
      }
      RunKeeps(n, w, front);
      var s := After(n, w, front);
      InvWindow(n, w, s);
      assert !EarlyAt(n, w, steps, |steps| - 1);
      StepKeeps(n, w, s, steps[|steps| - 1]);
    }
  }

  lemma InvWindow(n: nat, w: nat, s: System)
    requires n > 0 && Inv(n, w, s)
    ensures |s.sender.window| == n && Safe(s)
  {
  }

  /**
   * With fewer datagrams outstanding than there are numbers, a run is safe throughout if and only
   * if no acknowledgement is taken before the receiver has accepted its first byte.
   */
  lemma SafeExactly(n: nat, w: nat, steps: seq<Step>)
    requires n > w && n >= 2 && IsRun(n, w, steps)
    ensures (forall k :: 0 <= k <= |steps| ==> Safe(After(n, w, steps[..k]))) <==>
            (forall k :: 0 <= k < |steps| ==> !EarlyAt(n, w, steps, k))
  {
    hide Apply, Inv, Enabled, Initial, After, Safe;
    if forall k :: 0 <= k < |steps| ==> !EarlyAt(n, w, steps, k) {
      forall k | 0 <= k <= |steps| ensures Safe(After(n, w, steps[..k])) {
        PrefixIsRun(n, w, steps, k);
        RunKeeps(n, w, steps[..k]);
        InvWindow(n, w, After(n, w, steps[..k]));
      }
    } else {
      var k := FirstEarly(n, w, steps);
      PrefixIsRun(n, w, steps, k);
      RunKeeps(n, w, steps[..k]);
      EarlyStepHarms(n, w, steps, k);
    }
  }

  lemma PrefixIsRun(n: nat, w: nat, steps: seq<Step>, k: nat)
    requires n > 0 && IsRun(n, w, steps) && k <= |steps|
    ensures IsRun(n, w, steps[..k])
    ensures forall j :: 0 <= j < k ==> EarlyAt(n, w, steps[..k], j) == EarlyAt(n, w, steps, j)
  {
    hide After, Enabled;
    forall j | 0 <= j < k
      ensures Enabled(w, After(n, w, steps[..k][..j]), steps[..k][j])
      ensures EarlyAt(n, w, steps[..k], j) == EarlyAt(n, w, steps, j)
    {
      assert steps[..k][..j] == steps[..j];
    }
  }

  lemma FirstEarly(n: nat, w: nat, steps: seq<Step>) returns (k: nat)
    requires n > 0 && !(forall k :: 0 <= k < |steps| ==> !EarlyAt(n, w, steps, k))
    ensures k < |steps| && EarlyAt(n, w, steps, k) && forall j :: 0 <= j < k ==> !EarlyAt(n, w, steps, j)
  {
    hide EarlyAt;
    k := 0;
    while !EarlyAt(n, w, steps, k)
      invariant 0 <= k < |steps| && forall j :: 0 <= j < k ==> !EarlyAt(n, w, steps, j)
      decreases |steps| - k
    {
      k := k + 1;
    }
  }

  lemma EarlyStepHarms(n: nat, w: nat, steps: seq<Step>, k: nat)
    requires n > w && n >= 2 && IsRun(n, w, steps) && k < |steps| && EarlyAt(n, w, steps, k)
    requires Inv(n, w, After(n, w, steps[..k]))
    ensures !Safe(After(n, w, steps[..k + 1]))
  {
    hide Apply, Inv, Initial, Safe;
    var s := After(n, w, steps[..k]);
    InvWindow(n, w, s);
    EarlyAckHarms(n, w, s);
    assert steps[..k + 1][..k] == steps[..k] && Enabled(w, s, steps[k]);
  }

  /** When the window is empty and all is given, everything given has been accepted, in order. */
  lemma EmptyWindowMeansDelivered(n: nat, w: nat, s: System)
    requires n > w && n >= 2 && Inv(n, w, s)
    ensures WindowEmpty(n, s.sender) <==> s.sender.active == 0
    ensures WindowEmpty(n, s.sender) ==> s.accepted == s.given
  {
    var base, next := s.removed, |s.given|;
    OneMod(n);
    ModMove(next, n - 1, n);
    ModRound(next - 1, n);
    assert (s.sender.current - 1 % n + n) % n == (next - 1) % n;
    if (base - 1) % n == (next - 1) % n {
      ModSame(base - 1, next - 1, n);
    }
  }

  // ----- the hypotheses are needed -----

  lemma RunLonger(n: nat, w: nat, steps: seq<Step>, step: Step)
    requires n > 0 && IsRun(n, w, steps) && |After(n, w, steps).sender.window| == n && Enabled(w, After(n, w, steps), step)
    ensures IsRun(n, w, steps + [step])
    ensures After(n, w, steps + [step]) == Apply(n, w, After(n, w, steps), step)
  {
    hide Apply, Enabled;
    var more := steps + [step];
    assert more[..|more| - 1] == steps;
    forall k | 0 <= k < |more| ensures Enabled(w, After(n, w, more[..k]), more[k]) {
      if k < |steps| {
        assert more[..k] == steps[..k];
      }
    }
  }

  /** A first datagram that arrives damaged is answered with ACK 0, and the sender drops byte 0 unaccepted. */
  lemma DamagedFirstDatagram(n: nat, b: char)
    requires n >= 2
    ensures var steps := [Add(b), Receive(true), TakeAck];
            IsRun(n, 1, steps) && EarlyAt(n, 1, steps, 2) && !Safe(After(n, 1, steps))
  {
    hide Inv, After, IsRun;
    var s2, s3 := [Add(b), Receive(true)], [Add(b), Receive(true), TakeAck];
    DamagedArrives(n, b);
    assert s2 + [TakeAck] == s3 && s3[..2] == s2;
    RunLonger(n, 1, s2, TakeAck);
    var s := After(n, 1, s2);
    assert Deleting(n, s.sender, 0) == 1 by { OneMod(n); ModRound(-1, n); ModSmall(n - 1, n); }
  }

  lemma DamagedArrives(n: nat, b: char)
    requires n >= 2
    ensures var steps := [Add(b), Receive(true)];
            IsRun(n, 1, steps) && var s := After(n, 1, steps);
            s.sender.lastAcked == n - 1 && s.acks == [0] && s.accepted == [] && s.removed == 0 && |s.sender.window| == n
  {
    hide Inv, After, IsRun;
    assert [] + [Add(b)] == [Add(b)] && [Add(b)] + [Receive(true)] == [Add(b), Receive(true)];
    NothingYet(n, 1);
    OneMod(n);
    ModRound(-1, n);
    ModSmall(n - 1, n);
    RunLonger(n, 1, [], Add(b));
    RunLonger(n, 1, [Add(b)], Receive(true));
  }

  lemma NothingYet(n: nat, w: nat)
    requires n > 0
    ensures IsRun(n, w, []) && After(n, w, []) == Initial(n)
  {
  }

  function Adds(i: nat): seq<Step> {
    seq(i, _ => Add('a'))
  }

  function Receives(i: nat): seq<Step> {
    seq(i, _ => Receive(false))
  }

  function Bytes(i: nat): seq<char> {
    seq(i, _ => 'a')
  }

  function Numbered(n: nat, i: nat): seq<Datagram>
    requires n > 0
  {
    seq(i, k requires 0 <= k => Datagram(k % n, 'a'))
  }

  /** With as many datagrams outstanding as there are numbers, all of them can be sent at once. */
  lemma {:induction false} WindowFills(n: nat, i: nat)
    requires n >= 2 && i <= n
    ensures IsRun(n, n, Adds(i))
    ensures var s := After(n, n, Adds(i));
            && SenderAt(n, s.sender, s.given, 0) && s.given == Bytes(i) && s.data == Numbered(n, i)
            && s.receiver == Receiver(0, 0) && s.acks == [] && s.accepted == [] && s.removed == 0
  {
    hide After, IsRun, SenderAt;
    if i == 0 {
      assert Adds(0) == [] && Bytes(0) == [] && Numbered(n, 0) == [];
      NothingYet(n, n);
      InitialSender(n);
    } else {
      WindowFills(n, i - 1);
      assert Adds(i) == Adds(i - 1) + [Add('a')];
      var s := After(n, n, Adds(i - 1));
      SenderLength(n, s.sender, s.given, 0);
      RunLonger(n, n, Adds(i - 1), Add('a'));
      AddedAt(n, s.sender, s.given, 0, 'a');
      assert Bytes(i) == Bytes(i - 1) + ['a'];
      assert Numbered(n, i) == Numbered(n, i - 1) + [Datagram((i - 1) % n, 'a')];
    }
  }

  /** The receiver accepts them all; its acknowledgements are under way. */
  lemma {:induction false} WindowArrives(n: nat, i: nat)
    requires n >= 2 && i <= n
    ensures IsRun(n, n, Adds(n) + Receives(i))
    ensures var s := After(n, n, Adds(n) + Receives(i));
            && SenderAt(n, s.sender, s.given, 0) && s.given == Bytes(n) && s.data == Numbered(n, n)[i..]
            && s.receiver.expected == i % n && |s.accepted| == i
  {
    hide After, IsRun, Apply, SenderAt, Numbered;
    if i == 0 {
      assert Adds(n) + Receives(0) == Adds(n);
      WindowFills(n, n);
      ModSmall(0, n);
    } else {
      WindowArrives(n, i - 1);
      var before := Adds(n) + Receives(i - 1);
      var s := After(n, n, before);
      assert Adds(n) + Receives(i) == before + [Receive(false)];
      SenderLength(n, s.sender, s.given, 0);
      NumberedLength(n, n);
      RunLonger(n, n, before, Receive(false));
      NextArrives(n, s, i - 1);
    }
  }

  lemma NextArrives(n: nat, s: System, i: nat)
    requires n >= 2 && i < n && |s.sender.window| == n
    requires s.data == Numbered(n, n)[i..] && s.receiver.expected == i % n
    ensures var t := Apply(n, n, s, Receive(false));
            && t.sender == s.sender && t.given == s.given && t.data == Numbered(n, n)[i + 1..]
            && t.receiver.expected == (i + 1) % n && |t.accepted| == |s.accepted| + 1
  {
    assert s.data[0] == Numbered(n, n)[i] == Datagram(i % n, 'a');
    OneMod(n);
    ModMove(i, 1, n);
    ModRound(i % n + 1, n);
  }

  /**
   * With a full window of n the property fails even though no acknowledgement is ever taken: all n
   * arrive, a timeout sends them again, and the repeated first one bears the number expected next.
   */
  lemma FullWindowFails(n: nat)
    requires n >= 2
    ensures var steps := Adds(n) + Receives(n) + [Timeout] + [Receive(false)];
            IsRun(n, n, steps) && TakeAck !in steps && !Safe(After(n, n, steps))
  {
    hide Inv, After, IsRun, SenderAt, Adds, Receives, Numbered, Resent;
    var s0 := Adds(n) + Receives(n);
    WindowArrives(n, n);
    var s := After(n, n, s0);
    SenderLength(n, s.sender, s.given, 0);
    RunLonger(n, n, s0, Timeout);
    ResentAt(n, s.sender, s.given, 0, 0);
    assert Numbered(n, n)[n..] == [] by {
      NumberedLength(n, n);
    }
    var t := After(n, n, s0 + [Timeout]);
    assert t.data == [] + Resent(n, s.sender) == Resent(n, s.sender);
    ModSmall(0, n);
    ModOf(1, 0, n);
    RunLonger(n, n, s0 + [Timeout], Receive(false));
    NoAcks(n);
  }

  lemma NumberedLength(n: nat, i: nat)
    requires n > 0
    ensures |Numbered(n, i)| == i
  {
  }

  lemma NoAcks(n: nat)
    ensures TakeAck !in Adds(n) + Receives(n)
  {
  }

  // ----- what the sender does on its own -----

  /** What changes the sending side: a byte put into the window, a timeout, an acknowledgement taken. */
  datatype Event = Put(b: char) | Resend | TakeFrom(ack: nat)

  /** What the sender gets when it listens. */
  datatype Answer = Silence | Acked(ack: nat)

  function SenderStep(n: nat, s: Sender, e: Event): (t: Sender)
    requires n > 0
    ensures |t.window| == |s.window|
  {
    match e
    case Put(b) => Added(n, s, b)
    case Resend => s
    case TakeFrom(ack) => Removed(n, s, ack)
  }

  function SenderAfter(n: nat, s: Sender, events: seq<Event>): (t: Sender)
    requires n > 0
    ensures |t.window| == |s.window|
  {
    if events == [] then s
    else SenderStep(n, SenderAfter(n, s, events[..|events| - 1]), events[|events| - 1])
  }

  /** The datagrams that go out during the events. */
  function SentDuring(n: nat, s: Sender, events: seq<Event>): seq<Datagram>
    requires n > 0 && |s.window| == n
  {
    if events == [] then []
    else
      var front := events[..|events| - 1];
      var t := SenderAfter(n, s, front);
      SentDuring(n, s, front) +
      match events[|events| - 1]
      case Put(b) => [Datagram(t.current, b)]
      case Resend => Resent(n, t)
      case TakeFrom(_) => []
  }

  /** The bytes put into the window. */
  function PutBytes(events: seq<Event>): seq<char> {
    if events == [] then []
    else
      var last := events[|events| - 1];
      PutBytes(events[..|events| - 1]) + if last.Put? then [last.b] else []
  }

  /** What was heard. */
  function Heard(events: seq<Event>): seq<Answer> {
    if events == [] then []
    else
      Heard(events[..|events| - 1]) +
      match events[|events| - 1]
      case Put(_) => []
      case Resend => [Silence]
      case TakeFrom(ack) => [Acked(ack)]
  }

  /** Bytes are put only while fewer than most datagrams are outstanding. */
  predicate Allowed(n: nat, most: nat, s: Sender, events: seq<Event>)
    requires n > 0
  {
    events == [] ||
    (Allowed(n, most, s, events[..|events| - 1]) &&
     (events[|events| - 1].Put? ==> SenderAfter(n, s, events[..|events| - 1]).active < most))
  }

  lemma NoEvents(n: nat, most: nat, s: Sender)
    requires n > 0 && |s.window| == n
    ensures SenderAfter(n, s, []) == s && PutBytes([]) == [] && Heard([]) == [] && SentDuring(n, s, []) == [] && Allowed(n, most, s, [])
  {
  }

  /** One more event, in all of these. */
  lemma OneMoreEvent(n: nat, most: nat, s: Sender, events: seq<Event>, e: Event)
    requires n > 0 && |s.window| == n
    ensures var more := events + [e];
            && SenderAfter(n, s, more) == SenderStep(n, SenderAfter(n, s, events), e)
            && PutBytes(more) == PutBytes(events) + (if e.Put? then [e.b] else [])
            && Heard(more) == Heard(events) + (match e case Put(_) => [] case Resend => [Silence] case TakeFrom(ack) => [Acked(ack)])
            && (Allowed(n, most, s, events) && (e.Put? ==> SenderAfter(n, s, events).active < most) ==> Allowed(n, most, s, more))
            && SentDuring(n, s, more) == SentDuring(n, s, events) +
                 (match e case Put(b) => [Datagram(SenderAfter(n, s, events).current, b)]
                          case Resend => Resent(n, SenderAfter(n, s, events)) case TakeFrom(_) => [])
  {
    hide Resent, Added, Removed;
    assert (events + [e])[..|events|] == events;
  }

  // ----- the two sides as objects -----

  lemma ResentPlaces(n: nat, s: Sender)
    requires n > 0 && |s.window| == n
    ensures |Resent(n, s)| == if s.active <= 0 then 0 else s.active
    ensures forall i :: 0 <= i < |Resent(n, s)| ==> Resent(n, s)[i] == s.window[Place(n, s, i + 1)]
  {
  }

  /** The sending side: its fields are those of the machine's Sender, and its methods its operations. */
  class Client {
    const n: nat
    const window: array<Datagram>
    var currentSeqn: nat
    var lastAckedSeqn: nat
    var numActive: int

    constructor (numbers: nat)
      requires numbers >= 2
      ensures Valid() && n == numbers && Now() == Initial(numbers).sender && fresh(window)
    {
      n := numbers;
      window := new Datagram[numbers](_ => Datagram(0, ' '));
      currentSeqn, numActive := 0, 0;
      lastAckedSeqn := (0 - 1 % numbers + numbers) % numbers;
      new;
      assert window[..] == seq(numbers, _ => Datagram(0, ' '));
    }

    ghost predicate Valid()
      reads this
    {
      n >= 2 && window.Length == n && currentSeqn < n
    }

    ghost function Now(): Sender
      reads this, window
    {
      Sender(window[..], currentSeqn, lastAckedSeqn, numActive)
    }

    method CanAddToWindow(most: nat) returns (can: bool)
      ensures can == (Now().active < most)
    {
      can := numActive < most;
    }

    /** Puts a byte into the window and returns the datagram to send. */
    method AddToWindow(b: char) returns (sent: Datagram)
      requires Valid()
      modifies this, window
      ensures Valid() && Now() == Added(n, old(Now()), b) && sent == Datagram(old(currentSeqn), b)
    {
      sent := Datagram(currentSeqn, b);
      window[currentSeqn] := sent;
      currentSeqn := ((currentSeqn + 1) % n + n) % n;
      numActive := numActive + 1;
    }

    method IsWindowEmpty() returns (empty: bool)
      requires Valid()
      ensures empty == WindowEmpty(n, Now())
    {
      empty := lastAckedSeqn == (currentSeqn - 1 % n + n) % n;
    }

    /** The datagrams sent again on a timeout. */
    method ResendWindow() returns (sent: seq<Datagram>)
      requires Valid()
      ensures sent == Resent(n, Now())
    {
      hide Resent;
      ResentPlaces(n, Now());
      sent := [];
      var numSending := numActive;
      var i := 1;
      while i <= numSending
        invariant 1 <= i && (numSending > 0 ==> i <= numSending + 1) && (numSending <= 0 ==> i == 1)
        invariant i - 1 <= |Resent(n, Now())| && sent == Resent(n, Now())[..i - 1]
      {
        var current := (lastAckedSeqn + i % n + n) % n;
        assert window[current] == Resent(n, Now())[i - 1];
        sent := sent + [window[current]];
        i := i + 1;
      }
      assert Resent(n, Now())[..|Resent(n, Now())|] == Resent(n, Now());
    }

    /** Takes out of the window what the acknowledgement covers, one datagram at a time. */
    method RemoveFromWindow(ack: nat)
      requires Valid()
      modifies this
      ensures Valid() && Now() == Removed(n, old(Now()), ack)
    {
      var numDeleting := (ack - lastAckedSeqn % n + n) % n;
      var i := 1;
      while i <= numDeleting
        invariant 1 <= i <= numDeleting + 1 && numActive == old(numActive) - (i - 1)
        invariant lastAckedSeqn == old(lastAckedSeqn) && currentSeqn == old(currentSeqn)
      {
        numActive := numActive - 1;
        i := i + 1;
      }
      lastAckedSeqn := ack;
    }

    /** Fills the window from the line, starting at byte at. */
    method FillWindow(line: seq<char>, at: nat, ghost s: Sender, ghost before: seq<Event>)
      returns (next: nat, sent: seq<Datagram>, ghost events: seq<Event>)
      requires Valid() && at <= |line| && |s.window| == n && Now() == SenderAfter(n, s, before)
      requires PutBytes(before) == line[..at] && Allowed(n, n, s, before)
      modifies this, window
      ensures Valid() && Now() == SenderAfter(n, s, events)
      ensures at <= next <= |line| && PutBytes(events) == line[..next] && Heard(events) == Heard(before)
      ensures Allowed(n, n, s, events) && SentDuring(n, s, events) == SentDuring(n, s, before) + sent
      ensures numActive < n ==> next == |line|
    {
      hide SenderAfter, PutBytes, Heard, SentDuring, Allowed, Added, Removed, Resent;
      next, sent, events := at, [], before;
      var can := CanAddToWindow(n);
      while can && next < |line|
        invariant Valid() && Now() == SenderAfter(n, s, events) && can == (numActive < n)
        invariant at <= next <= |line| && PutBytes(events) == line[..next] && Heard(events) == Heard(before)
        invariant Allowed(n, n, s, events) && SentDuring(n, s, events) == SentDuring(n, s, before) + sent
        decreases |line| - next
      {
        OneMoreEvent(n, n, s, events, Put(line[next]));
        var d := AddToWindow(line[next]);
        assert line[..next + 1] == line[..next] + [line[next]];
        events := events + [Put(line[next])];
        sent := sent + [d];
        next := next + 1;
        can := CanAddToWindow(n);
      }
    }

    /** Hears one answer: an acknowledgement takes datagrams out of the window, a silence sends it again. */
    method Listen(answer: Answer, ghost s: Sender, ghost before: seq<Event>) returns (sent: seq<Datagram>, ghost events: seq<Event>)
      requires Valid() && |s.window| == n && Now() == SenderAfter(n, s, before) && Allowed(n, n, s, before)
      modifies this
      ensures Valid() && Now() == SenderAfter(n, s, events) && Allowed(n, n, s, events)
      ensures PutBytes(events) == PutBytes(before) && Heard(events) == Heard(before) + [answer]
      ensures SentDuring(n, s, events) == SentDuring(n, s, before) + sent
    {
      hide SenderAfter, PutBytes, Heard, SentDuring, Allowed, Added, Removed, Resent;
      match answer {
        case Acked(ack) =>
          OneMoreEvent(n, n, s, before, TakeFrom(ack));
          RemoveFromWindow(ack);
          events := before + [TakeFrom(ack)];
          sent := [];
        case Silence =>
          OneMoreEvent(n, n, s, before, Resend);
          sent := ResendWindow();
          events := before + [Resend];
      }
    }

    /**
     * Sends a line, hearing the given answers: bytes go into the window while there is room, a silence
     * sends the window again. It ends only when the whole line has been put into the window and the
     * window looks empty; otherwise it is still waiting for an answer.
     */
    method SendMessage(line: seq<char>, answers: seq<Answer>)
      returns (done: bool, sent: seq<Datagram>, ghost events: seq<Event>)
      requires Valid()
      modifies this, window
      ensures Valid() && Now() == SenderAfter(n, old(Now()), events) && Allowed(n, n, old(Now()), events)
      ensures PutBytes(events) <= line && Heard(events) <= answers && sent == SentDuring(n, old(Now()), events)
      ensures done ==> PutBytes(events) == line && WindowEmpty(n, Now())
      ensures !done ==> Heard(events) == answers
    {
      hide SenderAfter, SenderStep, PutBytes, Heard, SentDuring, Allowed, Added, Removed, Resent, WindowEmpty;
      ghost var s := Now();
      var currentByte, heard := 0, 0;
      done, sent, events := false, [], [];
      NoEvents(n, n, s);
      while true
        invariant Valid() && Now() == SenderAfter(n, s, events) && Allowed(n, n, s, events)
        invariant 0 <= currentByte <= |line| && PutBytes(events) == line[..currentByte]
        invariant 0 <= heard <= |answers| && Heard(events) == answers[..heard]
        invariant sent == SentDuring(n, s, events)
        decreases |answers| - heard
      {
        var empty := IsWindowEmpty();
        if empty && currentByte >= |line| {
          done := true;
          assert line[..currentByte] == line;
          return;
        }
        var more;
        currentByte, more, events := FillWindow(line, currentByte, s, events);
        sent := sent + more;
        if heard == |answers| {
          assert answers[..heard] == answers;
          return;
        }
        more, events := Listen(answers[heard], s, events);
        sent := sent + more;
        assert answers[..heard + 1] == answers[..heard] + [answers[heard]];
        heard := heard + 1;
      }
    }
  }

  /** The receiving side. */
  class Server {
    const n: nat
    var lastSentAckn: nat
    var expectedSeqn: nat

    constructor (numbers: nat)
      requires numbers > 0
      ensures n == numbers && Now() == Receiver(0, 0)
    {
      n, lastSentAckn, expectedSeqn := numbers, 0, 0;
    }

    ghost function Now(): Receiver
      reads this
    {
      Receiver(expectedSeqn, lastSentAckn)
    }

    /** Whether the datagram is intact and the one expected. */
    method ParseValidDatagram(d: Datagram, damaged: bool) returns (ok: bool)
      ensures ok == Valid(n, Now(), d, damaged)
    {
      if damaged {
        return false;
      }
      if d.seqn >= n {
        return false;
      }
      if d.seqn != expectedSeqn {
        return false;
      }
      ok := true;
    }

    /** Receives one datagram and returns the acknowledgement sent for it. */
    method ReceiveDatagram(d: Datagram, damaged: bool) returns (ack: nat)
      requires n > 0
      modifies this
      ensures Now() == Received(n, old(Now()), d, damaged) && ack == Now().lastSentAck
    {
      var ok := ParseValidDatagram(d, damaged);
      if ok {
        expectedSeqn := (expectedSeqn + 1 % n + n) % n;
        lastSentAckn := d.seqn;
      }
      ack := lastSentAckn;
    }
  }
}
