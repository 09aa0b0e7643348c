/** Nothing that the two peers do takes a request its chance: as long as its call is under way, it can still be answered. */
module TwoPeersProgress {
  import Decimal
  import opened JsonTypes
  import opened Messages
  import opened PeerStates
  import opened TwoPeers

  function Joined(left: bool, me: Side, other: Side): System { if left then System(me, other) else System(other, me) }

  lemma {:induction false} RunConcat(s: System, es: seq<(bool, TwoPeers.Event)>, more: seq<(bool, TwoPeers.Event)>)
    ensures TwoPeers.Run(s, es + more) == TwoPeers.Run(TwoPeers.Run(s, es), more)
  {
    if more == [] {
      assert es + more == es;
    } else {
      assert (es + more)[..|es + more| - 1] == es + more[..|more| - 1];
      RunConcat(s, es, more[..|more| - 1]);
    }
  }

  lemma OneStep(s: System, onLeft: bool, e: TwoPeers.Event)
    ensures TwoPeers.Run(s, [(onLeft, e)]) == TwoPeers.Step(s, onLeft, e)
  {
    assert [(onLeft, e)][..0] == [];
    assert TwoPeers.Run(s, []) == s;
  }

  function Arrivals(onLeft: bool, k: nat): seq<(bool, TwoPeers.Event)> {
    if k == 0 then [] else Arrivals(onLeft, k - 1) + [(onLeft, Arrive)]
  }

  lemma OneArrives(left: bool, me: Side, other: Side)
    requires !me.peer.closed && other.out != []
    ensures TwoPeers.Step(Joined(left, me, other), left, Arrive) ==
      Joined(left, me.(tasks := me.tasks + [other.out[0]]), other.(out := other.out[1..]))
  {
  }

  lemma ArriveLast(s: System, left: bool, k: nat)
    requires k > 0
    ensures TwoPeers.Run(s, Arrivals(left, k)) == TwoPeers.Step(TwoPeers.Run(s, Arrivals(left, k - 1)), left, Arrive)
  {
    var front := Arrivals(left, k - 1);
    assert (front + [(left, Arrive)])[..|front|] == front;
  }

  lemma OneMoreTaken(tasks: seq<Members>, out: seq<Members>, k: nat)
    requires 0 < k <= |out|
    ensures tasks + out[..k - 1] + [out[k - 1..][0]] == tasks + out[..k] && out[k - 1..][1..] == out[k..]
  {
  }

  /** The first `k` messages of the other side arrive. */
  lemma {:induction false} ManyArrive(left: bool, me: Side, other: Side, k: nat)
    requires !me.peer.closed && k <= |other.out|
    ensures TwoPeers.Run(Joined(left, me, other), Arrivals(left, k)) ==
      Joined(left, me.(tasks := me.tasks + other.out[..k]), other.(out := other.out[k..]))
  {
    if k == 0 {
      assert me.tasks + other.out[..0] == me.tasks && other.out[0..] == other.out;
    } else {
      ManyArrive(left, me, other, k - 1);
      ArriveLast(Joined(left, me, other), left, k);
      OneArrives(left, me.(tasks := me.tasks + other.out[..k - 1]), other.(out := other.out[k - 1..]));
      OneMoreTaken(me.tasks, other.out, k);
    }
  }

  lemma UnderwaySomewhere(me: Side, other: Side, m: Members)
    requires m in ViewOf(me, other).there
    ensures m in me.out || m in other.tasks
  {
    assert m in multiset(me.out) || m in multiset(other.tasks);
  }

  lemma JoinedEitherWay(left: bool, me: Side, other: Side)
    ensures Joined(left, me, other) == Joined(!left, other, me)
  {
  }

  lemma LastTaken(tasks: seq<Members>, out: seq<Members>, k: nat)
    requires k < |out|
    ensures var all := tasks + out[..k + 1]; all != [] && all[|all| - 1] == out[k]
  {
  }

  /** The message at `k` arrives, after all that were sent before it. */
  lemma ArrivesAt(left: bool, me: Side, other: Side, k: nat) returns (more: seq<(bool, TwoPeers.Event)>, me': Side, other': Side)
    requires k < |me.out| && !other.peer.closed
    ensures TwoPeers.Run(Joined(left, me, other), more) == Joined(left, me', other')
    ensures me'.peer == me.peer && other'.tasks != [] && other'.tasks[|other'.tasks| - 1] == me.out[k]
  {
    more := Arrivals(!left, k + 1);
    me', other' := me.(out := me.out[k + 1..]), other.(tasks := other.tasks + me.out[..k + 1]);
    ManyArrive(!left, other, me, k + 1);
    JoinedEitherWay(left, me, other);
    JoinedEitherWay(left, me', other');
    LastTaken(other.tasks, me.out, k);
  }

  /** A call that is on its way to the other side gets there. */
  lemma CallArrives(left: bool, me: Side, other: Side, m: Members)
    returns (more: seq<(bool, TwoPeers.Event)>, me': Side, other': Side, i: nat)
    requires m in ViewOf(me, other).there && !other.peer.closed
    ensures TwoPeers.Run(Joined(left, me, other), more) == Joined(left, me', other')
    ensures me'.peer == me.peer && i < |other'.tasks| && other'.tasks[i] == m
  {
    UnderwaySomewhere(me, other, m);
    if m in other.tasks {
      more, me', other' := [], me, other;
      i :| 0 <= i < |other.tasks| && other.tasks[i] == m;
    } else {
      var k :| 0 <= k < |me.out| && me.out[k] == m;
      more, me', other' := ArrivesAt(left, me, other, k);
      i := |other'.tasks| - 1;
    }
  }

  /** A handler's answer that is written reaches the request that waits for it. */
  lemma AnswerArrives(left: bool, me: Side, other: Side, i: nat, n: nat, a: Answer<Json>)
    returns (more: seq<(bool, TwoPeers.Event)>, me': Side, other': Side)
    requires i < |other.tasks| && IsCallFor(other.tasks[i], Decimal.Numeral(n))
    requires Valid(me.peer) && n in me.peer.futures && me.peer.futures[n].Waiting?
    ensures TwoPeers.Run(Joined(left, me, other), more) == Joined(left, me', other')
    ensures n in me'.peer.futures && me'.peer.futures[n] == Received(a)
  {
    var id := Decimal.Numeral(n);
    var reply := AnswerMessage(id, a);
    AnswerTellsItself(id, a);
    var ran := FinishTask(other, i, a, false);
    assert ran.out == other.out + [reply];
    var first := [(!left, TwoPeers.Finish(i, a, false))];
    OneStep(Joined(left, me, other), !left, TwoPeers.Finish(i, a, false));
    assert TwoPeers.Run(Joined(left, me, other), first) == Joined(left, me, ran);

    var k := |ran.out|;
    ManyArrive(left, me, ran, k);
    var got, sent := me.(tasks := me.tasks + ran.out[..k]), ran.(out := ran.out[k..]);
    RunConcat(Joined(left, me, other), first, Arrivals(left, k));

    var last := |got.tasks| - 1;
    assert got.tasks[last] == reply;
    OneStep(Joined(left, got, sent), left, TwoPeers.Finish(last, a, false));
    RunConcat(Joined(left, me, other), first + Arrivals(left, k), [(left, TwoPeers.Finish(last, a, false))]);
    more := first + Arrivals(left, k) + [(left, TwoPeers.Finish(last, a, false))];
    me', other' := FinishTask(got, last, a, false), sent;
    ResponseResolvesItsRequest(me.peer, reply, n);
  }

  /** In every reachable state, whatever else is under way: a request that waits and whose call the other side still has
      to answer can be answered, with whatever its handler gives. */
  lemma CanStillBeAnswered(es: seq<(bool, TwoPeers.Event)>, left: bool, n: nat, m: Members, a: Answer<Json>)
    returns (more: seq<(bool, TwoPeers.Event)>)
    requires var v := Record(es, left);
      n in v.peer.futures && v.peer.futures[n].Waiting? && m in v.there && IsCallFor(m, Decimal.Numeral(n))
    requires !SideOf(TwoPeers.Run(START, es), !left).peer.closed
    ensures var v := Record(es + more, left);
      n in v.peer.futures && v.peer.futures[n] == Received(a)
  {
    RunsKeepInv(es);
    var s := TwoPeers.Run(START, es);
    var me, other := SideOf(s, left), SideOf(s, !left);
    assert s == Joined(left, me, other);
    var there, me', other', i := CallArrives(left, me, other, m);
    var back, me'', other'' := AnswerArrives(left, me', other', i, n, a);
    RunConcat(s, there, back);
    more := there + back;
    RunConcat(START, es, more);
  }

  /** The close of a side ends the wait of all its requests. */
  lemma CloseEndsTheWait(es: seq<(bool, TwoPeers.Event)>, left: bool, n: nat)
    ensures var v := Record(es + [(left, Close)], left);
      v.peer.closed && (n in v.peer.futures ==> !v.peer.futures[n].Waiting?)
  {
    RunsKeepInv(es + [(left, Close)]);
    RunConcat(START, es, [(left, Close)]);
    OneStep(TwoPeers.Run(START, es), left, Close);
    var peer := Record(es + [(left, Close)], left).peer;
    assert peer == PeerStates.Finish(SideOf(TwoPeers.Run(START, es), left).peer);
    if n in peer.futures { ClosedWaitsForNothing(peer, n); }
  }

  lemma ClosedWaitsForNothing(p: Peer, n: nat)
    requires Valid(p) && p.closed && n in p.futures
    ensures !p.futures[n].Waiting?
  {
  }
}
