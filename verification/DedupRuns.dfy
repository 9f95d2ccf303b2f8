/**
 Duplicate suppression over whole runs of one node: packets that arrive, packets of its own, and
 cleanups of the set of seen keys, at any times.
 */
module DedupRuns {
  import opened Clock
  import opened RouterModel
  import opened DedupSet
  import opened DataPlane

  datatype Run = Run(self: Id, events: seq<PacketEvent>, times: seq<Time>)

  ghost predicate IsRun(run: Run)
  {
    && |run.events| == |run.times|
    && forall i, j :: 0 <= i < j < |run.times| ==> run.times[i] <= run.times[j]
  }

  /** The queue before event n. */
  ghost function QueueAt(run: Run, n: nat): Queue
    requires IsRun(run) && n <= |run.events|
  {
    if n == 0 then [] else QueueAfter(run.self, QueueAt(run, n - 1), run.events[n - 1], run.times[n - 1])
  }

  /** Packets are the same if they agree in their id and in whether they expect a response. */
  predicate HasKey(p: Packet, key: Key) { p.id == key.0 && p.expectResponse == key.1 }

  /** Event i brings a packet with this key to the forwarding section. */
  ghost predicate PassesAt(run: Run, i: nat, key: Key)
    requires IsRun(run) && i < |run.events|
  {
    Passes(run.self, QueueAt(run, i), run.events[i]) && HasKey(run.events[i].p, key)
  }

  /** Event i enters the key into the queue. */
  ghost predicate RecordsAt(run: Run, i: nat, key: Key)
    requires IsRun(run) && i < |run.events|
  {
    PassesAt(run, i, key) && key !in Values(QueueAt(run, i))
  }

  /** A cleanup between events i and n finds an entry made at event i too old. */
  ghost predicate ExpiredBetween(run: Run, i: nat, n: nat)
    requires IsRun(run) && i < |run.events|
  {
    exists c :: i < c < n && c < |run.events| && run.events[c].CleanUp? && run.times[c] - run.times[i] > MAX_AGE
  }

  /** The key was entered at event i and has not expired by event n. */
  ghost predicate LiveFrom(run: Run, i: nat, n: nat, e: (Time, Key))
    requires IsRun(run) && n <= |run.events|
  {
    i < n && RecordsAt(run, i, e.1) && run.times[i] == e.0 && !ExpiredBetween(run, i, n)
  }

  lemma StepEntry(self: Id, q: Queue, ev: PacketEvent, now: Time, e: (Time, Key))
    ensures e in QueueAfter(self, q, ev, now) <==>
              || (e in q && (ev.CleanUp? ==> now - e.0 <= MAX_AGE))
              || (Passes(self, q, ev) && e.0 == now && HasKey(ev.p, e.1) && e.1 !in Values(q))
  {
    RecentContains(q, now, MAX_AGE, e);
  }

  lemma LiveGoesOn(run: Run, i: nat, n: nat, e: (Time, Key))
    requires IsRun(run) && n < |run.events| && i < n
    ensures LiveFrom(run, i, n + 1, e) <==>
              LiveFrom(run, i, n, e) && (run.events[n].CleanUp? ==> run.times[n] - e.0 <= MAX_AGE)
  {}

  /** An entry is in the queue exactly if some event made it and no cleanup has found it too old since. */
  lemma {:induction false} EntryIff(run: Run, n: nat, e: (Time, Key))
    requires IsRun(run) && n <= |run.events|
    ensures e in QueueAt(run, n) <==> exists i: nat :: LiveFrom(run, i, n, e)
  {
    if n > 0 {
      var m := n - 1;
      EntryIff(run, m, e);
      StepEntry(run.self, QueueAt(run, m), run.events[m], run.times[m], e);
      if e in QueueAt(run, n) {
        if e in QueueAt(run, m) {
          var i: nat :| LiveFrom(run, i, m, e);
          LiveGoesOn(run, i, m, e);
        } else {
          assert LiveFrom(run, m, n, e);
        }
      }
      if i: nat :| LiveFrom(run, i, n, e) {
        if i < m { LiveGoesOn(run, i, m, e); }
      }
    }
  }

  /**
   A packet that arrives from elsewhere and is not for this node reaches the forwarding section if
   and only if every record of its key has been cleaned up after more than the maximum age.
   */
  lemma PassesIff(run: Run, j: nat, key: Key)
    requires IsRun(run) && j < |run.events| && run.events[j].Received? && HasKey(run.events[j].p, key)
    requires IsForeign(run.self, run.events[j].src, run.events[j].p) && run.events[j].p.dest != run.self
    ensures PassesAt(run, j, key) <==> forall i :: 0 <= i < j && RecordsAt(run, i, key) ==> ExpiredBetween(run, i, j)
  {
    var q := QueueAt(run, j);
    if i :| 0 <= i < j && RecordsAt(run, i, key) && !ExpiredBetween(run, i, j) {
      var e := (run.times[i], key);
      assert LiveFrom(run, i, j, e);
      EntryIff(run, j, e);
      assert e in q && e.1 in Values(q);
    }
    if key in Values(q) {
      var t :| 0 <= t < |q| && q[t].1 == key;
      EntryIff(run, j, q[t]);
      var i: nat :| LiveFrom(run, i, j, q[t]);
    }
  }

  /**
   Two packets with the same key that arrive and are both forwarded are more than 30 s apart,
   whatever arrives, is sent or is cleaned up in between.
   */
  lemma NeverTwiceWithinWindow(run: Run, i: nat, j: nat, node: Node, node': Node)
    requires IsRun(run) && i < j < |run.events| && run.events[i].Received? && run.events[j].Received?
    requires run.events[i].p.id == run.events[j].p.id
    requires run.events[i].p.expectResponse == run.events[j].p.expectResponse
    requires node.self == run.self == node'.self
    requires HandlePacket(node, Values(QueueAt(run, i)), run.events[i].src, run.events[i].p).forwards != map[]
    requires HandlePacket(node', Values(QueueAt(run, j)), run.events[j].src, run.events[j].p).forwards != map[]
    ensures run.times[j] - run.times[i] > MAX_AGE
  {
    var key := (run.events[i].p.id, run.events[i].p.expectResponse);
    assert RecordsAt(run, i, key) && PassesAt(run, j, key);
    PassesIff(run, j, key);
  }
}
