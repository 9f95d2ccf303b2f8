/** The set of recently seen packet keys: a hash set and a queue in order of insertion that must agree. */
module DedupSet {
  import opened Clock

  /** The values in the queue. */
  ghost function Values<T(!new)>(q: seq<(Time, T)>): (s: set<T>)
    ensures forall v :: v in s <==> exists i :: 0 <= i < |q| && q[i].1 == v
  {
    set i | 0 <= i < |q| :: q[i].1
  }

  ghost predicate Ordered<T>(q: seq<(Time, T)>, clock: Time)
  {
    (forall i, j :: 0 <= i < j < |q| ==> q[i].0 <= q[j].0 && q[i].1 != q[j].1)
    && forall i :: 0 <= i < |q| ==> q[i].0 <= clock
  }

  /** The entries that are at most maxAge old. */
  function Recent<T>(q: seq<(Time, T)>, now: Time, maxAge: Time): seq<(Time, T)>
  {
    if q == [] then []
    else (if now - q[0].0 <= maxAge then [q[0]] else []) + Recent(q[1..], now, maxAge)
  }

  lemma {:induction false} RecentOfRecent<T>(q: seq<(Time, T)>, now: Time, maxAge: Time)
    requires forall i :: 0 <= i < |q| ==> now - q[i].0 <= maxAge
    ensures Recent(q, now, maxAge) == q
  {
    if q != [] { RecentOfRecent(q[1..], now, maxAge); }
  }

  lemma {:induction false} RecentContains<T>(q: seq<(Time, T)>, now: Time, maxAge: Time, e: (Time, T))
    ensures e in Recent(q, now, maxAge) <==> e in q && now - e.0 <= maxAge
  {
    if q != [] {
      RecentContains(q[1..], now, maxAge, e);
      assert q == [q[0]] + q[1..];
    }
  }

  // ----- operations on the queue -----

  datatype Op<T> = Insert(v: T) | Cleanup

  function Apply<T(==)>(q: seq<(Time, T)>, op: Op<T>, now: Time, maxAge: Time): seq<(Time, T)>
  {
    match op
    case Insert(v) => if exists i :: 0 <= i < |q| && q[i].1 == v then q else q + [(now, v)]
    case Cleanup => Recent(q, now, maxAge)
  }

  class TimedDedupSet<T(==, !new)> {
    const maxAge: Time
    var members: set<T>
    var queue: seq<(Time, T)>
    /** The time of the last operation. */
    ghost var clock: Time

    ghost predicate Valid()
      reads this
    {
      members == Values(queue) && Ordered(queue, clock)
    }

    constructor (maxAge: Time, ghost now: Time)
      ensures Valid() && queue == [] && members == {} && this.maxAge == maxAge && clock == now
    {
      this.maxAge := maxAge;
      members, queue, clock := {}, [], now;
    }

    method Contains(v: T) returns (b: bool)
      requires Valid()
      ensures b <==> exists i :: 0 <= i < |queue| && queue[i].1 == v
    {
      b := v in members;
    }

    method Insert(v: T, now: Time) returns (inserted: bool)
      requires Valid() && clock <= now
      modifies this
      ensures Valid() && clock == now && queue == Apply(old(queue), Op.Insert(v), now, maxAge)
      ensures members == old(members) + {v}
      ensures inserted <==> v !in old(members)
    {
      clock := now;
      if v in members {
        return false;
      }
      members := members + {v};
      queue := queue + [(now, v)];
      inserted := true;
      assert forall i :: 0 <= i < |old(queue)| ==> queue[i] == old(queue)[i];
      assert queue[|old(queue)|].1 == v;
    }

    /** Removes exactly the entries older than maxAge. */
    method Cleanup(now: Time)
      requires Valid() && clock <= now
      modifies this
      ensures Valid() && clock == now && queue == Apply(old(queue), Op.Cleanup, now, maxAge)
      ensures forall v :: v in members <==>
                exists i :: 0 <= i < |old(queue)| && old(queue)[i].1 == v && now - old(queue)[i].0 <= maxAge
    {
      ghost var queue0 := queue;
      clock := now;
      while queue != []
        invariant Valid() && clock == now
        invariant Recent(queue, now, maxAge) == Recent(queue0, now, maxAge)
        decreases |queue|
      {
        var (timestamp, v) := queue[0];
        if now - timestamp > maxAge {
          PopFront(queue, clock);
          members := members - {v};
          queue := queue[1..];
        } else {
          break;
        }
      }
      RecentOfRecent(queue, now, maxAge);
      forall v
        ensures v in members <==> exists i :: 0 <= i < |queue0| && queue0[i].1 == v && now - queue0[i].0 <= maxAge
      {
        if v in members {
          var i :| 0 <= i < |queue| && queue[i].1 == v;
          RecentContains(queue0, now, maxAge, queue[i]);
        }
        if i :| 0 <= i < |queue0| && queue0[i].1 == v && now - queue0[i].0 <= maxAge {
          RecentContains(queue0, now, maxAge, queue0[i]);
        }
      }
    }

    method Clear()
      modifies this
      ensures Valid() && queue == [] && members == {}
    {
      members, queue := {}, [];
    }
  }

  lemma PopFront<T(!new)>(q: seq<(Time, T)>, clock: Time)
    requires q != [] && Ordered(q, clock)
    ensures Values(q[1..]) == Values(q) - {q[0].1} && Ordered(q[1..], clock)
  {
    forall v
      ensures v in Values(q[1..]) <==> v in Values(q) - {q[0].1}
    {
      if v in Values(q) && v != q[0].1 {
        var i :| 0 <= i < |q| && q[i].1 == v;
        assert q[1..][i - 1].1 == v;
      }
    }
  }
}
