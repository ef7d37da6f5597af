/**
 * Go-Back-N gets everything through in the end: from whatever state losses, damage and repetitions
 * have led to, one timeout and one faithful delivery of what is then under way empties the window.
 */
module GbnRecovery {
  import opened GoBackN

  /** Everything in the data channel arrives undamaged. */
  function ReceiveAll(n: nat, w: nat, s: System): System
    requires n > 0 && |s.sender.window| == n
    decreases |s.data|
  {
    if s.data == [] then s else ReceiveAll(n, w, Apply(n, w, s, Receive(false)))
  }

  /** Every acknowledgement under way is taken. */
  function TakeAll(n: nat, w: nat, s: System): System
    requires n > 0 && |s.sender.window| == n
    decreases |s.acks|
  {
    if s.acks == [] then s else TakeAll(n, w, Apply(n, w, s, TakeAck))
  }

  /** The last number under way back to the sender is the one the receiver sent last. */
  predicate LastIsSent(s: System) {
    s.acks != [] && s.acks[|s.acks| - 1] == s.receiver.lastSentAck
  }

  /** From place d on, the channel holds the bytes up to the last one given, one after the other. */
  predicate EndsWithRest(at: seq<nat>, d: nat, given: nat) {
    d <= |at| && forall i :: d <= i < |at| ==> at[i] == given - |at| + i
  }

  /** If the bytes that the receiver still misses end the channel in order, it gets them all. */
  lemma {:induction false} AllArrives(n: nat, w: nat, s: System, at: seq<nat>, d: nat)
    requires n > w && n >= 2 && Inv(n, w, s) && |s.sender.window| == n
    requires DataAt(n, s.data, s.given, |s.accepted|, at) && EndsWithRest(at, d, |s.given|) && |s.given| <= |s.accepted| + |at| - d
    ensures var t := ReceiveAll(n, w, s);
            && Inv(n, w, t) && t.sender == s.sender && t.data == [] && t.given == s.given && t.removed == s.removed
            && t.accepted == s.given && (s.data != [] || LastIsSent(s) ==> LastIsSent(t)) && (s.data == [] ==> t == s)
    decreases |s.data|
  {
    hide Inv, DataAt;
    AtLength(n, w, s, at);
    if s.data != [] {
      var t := Apply(n, w, s, Receive(false));
      OneArrives(n, w, s, at, d);
      AllArrives(n, w, t, at[1..], if d > 0 then d - 1 else 0);
    }
  }

  lemma AtLength(n: nat, w: nat, s: System, at: seq<nat>)
    requires n > 0 && Inv(n, w, s) && DataAt(n, s.data, s.given, |s.accepted|, at)
    ensures |at| == |s.data| && |s.accepted| <= |s.given|
    ensures |s.accepted| == |s.given| ==> s.accepted == s.given
  {
  }

  lemma OneArrives(n: nat, w: nat, s: System, at: seq<nat>, d: nat)
    requires n > w && n >= 2 && Inv(n, w, s) && |s.sender.window| == n && s.data != []
    requires DataAt(n, s.data, s.given, |s.accepted|, at) && EndsWithRest(at, d, |s.given|) && |s.given| <= |s.accepted| + |at| - d
    ensures var t, e := Apply(n, w, s, Receive(false)), if d > 0 then d - 1 else 0;
            && Inv(n, w, t) && t.sender == s.sender && t.given == s.given && t.removed == s.removed && LastIsSent(t)
            && |at| > 0 && DataAt(n, t.data, t.given, |t.accepted|, at[1..]) && EndsWithRest(at[1..], e, |t.given|)
            && |t.given| <= |t.accepted| + |at[1..]| - e
  {
    hide Inv, SenderAt, ReceiverAt, DataAt, Received;
    AtLength(n, w, s, at);
    ReceiveKeeps(n, w, s, false);
    ValidIsNext(n, w, s, false, at);
    DataTail(n, s.data, s.given, |s.accepted|, at);
  }

  /** If everything is accepted and the last acknowledgement says so, taking them all empties the window. */
  lemma {:induction false} AllTaken(n: nat, w: nat, s: System)
    requires n > w && n >= 2 && Inv(n, w, s) && |s.sender.window| == n && s.accepted == s.given
    requires s.sender.active == 0 || LastIsSent(s)
    ensures var t := TakeAll(n, w, s);
            && Inv(n, w, t) && t.sender.active == 0 && t.data == s.data && t.acks == [] && t.given == s.given && t.accepted == s.accepted
    decreases |s.acks|
  {
    hide Inv;
    if s.acks != [] {
      SomethingGiven(n, w, s);
      TakeAckKeeps(n, w, s);
      if s.sender.active == 0 || |s.acks| == 1 {
        LastEmpties(n, w, s);
      }
      AllTaken(n, w, Apply(n, w, s, TakeAck));
    }
  }

  lemma SomethingGiven(n: nat, w: nat, s: System)
    requires n > 0 && Inv(n, w, s) && s.acks != []
    ensures s.given != []
  {
  }

  lemma LastEmpties(n: nat, w: nat, s: System)
    requires n > w && n >= 2 && Inv(n, w, s) && |s.sender.window| == n && s.accepted == s.given && s.acks != []
    requires s.sender.active == 0 || (|s.acks| == 1 && LastIsSent(s))
    ensures Apply(n, w, s, TakeAck).sender.active == 0
  {
    hide DataAt;
    var back :| AcksAt(n, s.acks, s.removed, |s.accepted|, back);
    if s.sender.active != 0 {
      ModSame(back[0], |s.given| - 1, n);
    }
    DeletingUpTo(n, s.sender, s.given, s.removed, back[0]);
  }

  /** A timeout sends what is outstanding behind what is still under way. */
  lemma TimeoutAddsRest(n: nat, w: nat, s: System) returns (at: seq<nat>, d: nat)
    requires n > w && n >= 2 && Inv(n, w, s) && |s.sender.window| == n
    ensures var t := Apply(n, w, s, Timeout);
            && Inv(n, w, t) && DataAt(n, t.data, t.given, |t.accepted|, at) && EndsWithRest(at, d, |t.given|)
            && |t.given| <= |t.accepted| + |at| - d && (t.data == [] ==> t.sender.active == 0)
  {
    hide Resent, AcksAt, ReceiverAt;
    TimeoutKeeps(n, w, s);
    var before :| DataAt(n, s.data, s.given, |s.accepted|, before);
    at := DataResent(n, s.data, s.sender, s.given, s.removed, |s.accepted|, before);
    d := |before|;
  }

  /**
   * From every state that a run without early acknowledgements leads to, one timeout, the arrival of
   * everything then under way and the taking of all acknowledgements leave the window empty, the channels
   * empty, and every byte accepted in order.
   */
  lemma Recovers(n: nat, w: nat, steps: seq<Step>)
    requires n > w && n >= 2 && IsRun(n, w, steps) && forall k :: 0 <= k < |steps| ==> !EarlyAt(n, w, steps, k)
    ensures |After(n, w, steps).sender.window| == n
    ensures var s := After(n, w, steps);
            var r := ReceiveAll(n, w, Apply(n, w, s, Timeout));
            |r.sender.window| == n &&
            var t := TakeAll(n, w, r);
            && t.given == s.given && t.accepted == t.given && t.sender.active == 0 && WindowEmpty(n, t.sender)
            && t.data == [] && t.acks == []
  {
    hide Inv, After, IsRun, EarlyAt, DataAt, Resent, WindowEmpty;
    var s := After(n, w, steps);
    RunKeeps(n, w, steps);
    InvWindow(n, w, s);
    var at, d := TimeoutAddsRest(n, w, s);
    var u := Apply(n, w, s, Timeout);
    InvWindow(n, w, u);
    AllArrives(n, w, u, at, d);
    var r := ReceiveAll(n, w, u);
    InvWindow(n, w, r);
    AllTaken(n, w, r);
    EmptyWindowMeansDelivered(n, w, TakeAll(n, w, r));
  }
}
