/**
 The TTL alone ends every packet: without duplicate suppression and whatever the forwarding tables
 say, even when they loop, only a bounded number of copies can ever arrive.
 */
module TtlBound {
  import opened RouterModel
  import opened DataPlane
  import opened Convergence
  import opened Flooding

  /** An upper bound on the arrivals that a copy with this TTL can still cause. */
  function Weight(fanout: nat, ttl: nat): nat
  {
    if ttl == 0 then 0 else 1 + fanout * Weight(fanout, ttl - 1)
  }

  ghost function Total(fanout: nat, copies: seq<Copy>): nat
  {
    if copies == [] then 0 else Total(fanout, copies[1..]) + Weight(fanout, copies[0].packet.ttl)
  }

  lemma {:induction false} TotalConcat(fanout: nat, a: seq<Copy>, b: seq<Copy>)
    ensures Total(fanout, a + b) == Total(fanout, a) + Total(fanout, b)
  {
    if a == [] {
      assert a + b == b;
    } else {
      TotalConcat(fanout, a[1..], b);
      assert (a + b)[1..] == a[1..] + b;
    }
  }

  lemma {:induction false} TotalAtMost(fanout: nat, copies: seq<Copy>, ttl: nat)
    requires forall i :: 0 <= i < |copies| ==> copies[i].packet.ttl == ttl
    ensures Total(fanout, copies) == |copies| * Weight(fanout, ttl)
  {
    if copies != [] {
      TotalAtMost(fanout, copies[1..], ttl);
      var w := Weight(fanout, ttl);
      assert |copies| * w == (|copies| - 1) * w + w;
    }
  }

  /** Every node forwards a packet to at most `fanout` others. */
  ghost predicate FanoutAtMost(net: Network, fanout: nat)
  {
    fanout >= 1 && forall u :: u in net ==> |net[u].views| <= fanout
  }

  ghost predicate Alive(copies: seq<Copy>)
  {
    forall i :: 0 <= i < |copies| ==> copies[i].packet.ttl >= 1
  }

  /** Copy i arrives at a node that remembers nothing; what it forwards is now in flight as well. */
  ghost predicate ForgetfulArrival(net: Network, copies: seq<Copy>, i: nat, sent: seq<Copy>, copies': seq<Copy>)
  {
    && i < |copies| && copies[i].dst in net
    && copies' == copies[..i] + copies[i + 1..] + sent
    && var forwards := HandlePacket(net[copies[i].dst], {}, copies[i].src, copies[i].packet).forwards;
       && |sent| == |forwards|
       && forall j :: 0 <= j < |sent| ==> sent[j].dst in forwards && sent[j].packet == forwards[sent[j].dst]
  }

  lemma ForwardsFew(net: Network, fanout: nat, u: Id, seen: set<Key>, src: Id, p: Packet)
    requires FanoutAtMost(net, fanout) && u in net
    ensures |HandlePacket(net[u], seen, src, p).forwards| <= fanout
  {
    var forwards, hops := HandlePacket(net[u], seen, src, p).forwards, NextHops(net[u], p.dest);
    assert forwards.Keys <= hops;
    SubsetSize(forwards.Keys, hops);
    assert |hops| <= fanout by {
      if p.dest == BROADCAST { SubsetSize(hops, net[u].views.Keys); }
    }
  }

  lemma TotalWithout(fanout: nat, copies: seq<Copy>, i: nat)
    requires i < |copies|
    ensures Total(fanout, copies) == Total(fanout, copies[..i] + copies[i + 1..]) + Weight(fanout, copies[i].packet.ttl)
  {
    var tail := [copies[i]] + copies[i + 1..];
    assert copies == copies[..i] + tail && tail[1..] == copies[i + 1..];
    TotalConcat(fanout, copies[..i], tail);
    TotalConcat(fanout, copies[..i], copies[i + 1..]);
  }

  lemma SentWeight(net: Network, fanout: nat, copies: seq<Copy>, i: nat, sent: seq<Copy>, copies': seq<Copy>)
    requires FanoutAtMost(net, fanout) && Alive(copies) && ForgetfulArrival(net, copies, i, sent, copies')
    ensures Alive(sent) && Total(fanout, sent) < Weight(fanout, copies[i].packet.ttl)
  {
    var c := copies[i];
    var ttl := c.packet.ttl - 1;
    assert forall j :: 0 <= j < |sent| ==> sent[j].packet.ttl == ttl && ttl > 0;
    TotalAtMost(fanout, sent, ttl);
    ForwardsFew(net, fanout, c.dst, {}, c.src, c.packet);
    SmallerProduct(|sent|, fanout, Weight(fanout, ttl));
  }

  lemma SmallerProduct(a: nat, b: nat, w: nat)
    requires a <= b
    ensures a * w <= b * w
  {}

  lemma ArrivalUsesWeight(net: Network, fanout: nat, copies: seq<Copy>, i: nat, sent: seq<Copy>, copies': seq<Copy>)
    requires FanoutAtMost(net, fanout) && Alive(copies) && ForgetfulArrival(net, copies, i, sent, copies')
    ensures Alive(copies') && Total(fanout, copies') < Total(fanout, copies)
  {
    SentWeight(net, fanout, copies, i, sent, copies');
    assert Total(fanout, copies') < Total(fanout, copies) by {
      TotalWithout(fanout, copies, i);
      TotalConcat(fanout, copies[..i] + copies[i + 1..], sent);
    }
  }

  ghost predicate ForgetfulNext(net: Network, copies: seq<Copy>, copies': seq<Copy>)
  {
    exists i: nat, sent: seq<Copy> :: ForgetfulArrival(net, copies, i, sent, copies')
  }

  ghost predicate IsForgetfulRun(net: Network, states: seq<seq<Copy>>)
  {
    |states| > 0 && forall t :: 0 < t < |states| ==> ForgetfulNext(net, states[t - 1], states[t])
  }

  /** No run is longer than the weight it starts with. */
  lemma {:induction false} EveryRunEnds(net: Network, fanout: nat, states: seq<seq<Copy>>, t: nat)
    requires FanoutAtMost(net, fanout) && IsForgetfulRun(net, states) && Alive(states[0]) && t < |states|
    ensures Alive(states[t]) && t + Total(fanout, states[t]) <= Total(fanout, states[0])
  {
    if t > 0 {
      EveryRunEnds(net, fanout, states, t - 1);
      var i: nat, sent: seq<Copy> :| ForgetfulArrival(net, states[t - 1], i, sent, states[t]);
      ArrivalUsesWeight(net, fanout, states[t - 1], i, sent, states[t]);
    }
  }
}
