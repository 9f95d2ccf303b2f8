/** The receiving half of the codec as a function of its state and one datagram. */
module FecReceiver {
  import opened GF256
  import opened LinearAlgebra
  import opened Cauchy
  import opened FecWire
  import opened FecFrames

  const MAX_RECEIVE_GROUPS := 256

  datatype RecvGroup = RecvGroup(k: nat, m: nat, slots: seq<Option<Bytes>>, dataLens: seq<U16>, received: nat,
                                 delivered: bool)

  datatype Receiver = Receiver(groups: map<U32, RecvGroup>, order: seq<U32>)

  const NO_RECEIVER := Receiver(map[], [])

  function FreshGroup(k: nat, m: nat): RecvGroup
  {
    RecvGroup(k, m, seq(k + m, i => None), seq(k, i => 0), 0, false)
  }

  // ----- bounded memory of groups -----

  function Evict(r: Receiver, keep: U32): (r': Receiver)
    ensures |r'.order| <= |r.order|
    decreases |r.order|
  {
    if |r.order| <= MAX_RECEIVE_GROUPS then r
    else
      var stale := r.order[0];
      Evict(Receiver(if stale != keep then r.groups - {stale} else r.groups, r.order[1..]), keep)
  }

  function Remember(r: Receiver, g: U32): Receiver
  {
    Evict(Receiver(r.groups, r.order + [g]), g)
  }

  // ----- reassembly of a complete group -----

  /** The first `limit` filled slots among the first n, in slot order. */
  function FilledSlots(slots: seq<Option<Bytes>>, n: nat, limit: nat): (idx: seq<nat>)
    requires n <= |slots|
    ensures |idx| <= limit
    ensures forall r :: 0 <= r < |idx| ==> idx[r] < n && slots[idx[r]].Some?
    ensures forall r, s :: 0 <= r < s < |idx| ==> idx[r] < idx[s]
  {
    if n == 0 then []
    else
      var before := FilledSlots(slots, n - 1, limit);
      if |before| < limit && slots[n - 1].Some? then before + [n - 1] else before
  }

  function SymbolLen(slots: seq<Option<Bytes>>, n: nat): (l: nat)
    requires n <= |slots|
    ensures forall i :: 0 <= i < n && slots[i].Some? ==> |slots[i].value| <= l
  {
    if n == 0 then 0
    else if slots[n - 1].Some? then Max(SymbolLen(slots, n - 1), |slots[n - 1].value|)
    else SymbolLen(slots, n - 1)
  }

  function PaddedRows(slots: seq<Option<Bytes>>, idx: seq<nat>, l: nat): (b: Matrix)
    requires forall r :: 0 <= r < |idx| ==> idx[r] < |slots| && slots[idx[r]].Some?
    ensures IsMatrix(b, |idx|, l)
  {
    seq(|idx|, r requires 0 <= r < |idx| => Pad(slots[idx[r]].value, l))
  }

  function Truncate(x: Matrix, lens: seq<U16>): (out: seq<Bytes>)
    requires |x| <= |lens|
    ensures |out| == |x|
  {
    seq(|x|, i requires 0 <= i < |x| => if lens[i] <= |x[i]| then x[i][..lens[i]] else x[i])
  }

  function CountFilled(slots: seq<Option<Bytes>>, n: nat): (c: nat)
    requires n <= |slots|
    ensures c <= n
  {
    if n == 0 then 0 else CountFilled(slots, n - 1) + if slots[n - 1].Some? then 1 else 0
  }

  lemma {:induction false} FilledSlotsSize(slots: seq<Option<Bytes>>, n: nat, limit: nat)
    requires n <= |slots|
    ensures |FilledSlots(slots, n, limit)| == if CountFilled(slots, n) < limit then CountFilled(slots, n) else limit
  {
    if n > 0 { FilledSlotsSize(slots, n - 1, limit); }
  }

  /** A stored group has one slot per frame, and `received` counts the filled ones. */
  ghost predicate Shaped(k: nat, m: nat, group: RecvGroup)
  {
    && group.k == k && group.m == m && |group.slots| == k + m && |group.dataLens| == k
    && group.received == CountFilled(group.slots, k + m)
  }

  ghost predicate AllShaped(k: nat, m: nat, r: Receiver)
  {
    forall g :: g in r.groups ==> Shaped(k, m, r.groups[g])
  }

  /** The solution of the system for the given rows; empty when it has none. */
  ghost function Solved(k: nat, idx: seq<nat>, b: Matrix, l: nat): (x: seq<Bytes>)
    requires |idx| == k <= 256 && IsMatrix(b, k, l) && forall r :: 0 <= r < k ==> idx[r] < 256
    ensures x == [] || |x| == k
  {
    match Gauss(EncodingRows(k, idx), b, 0, l)
    case None => []
    case Some(x) => x
  }

  /** The payloads that a group with k filled slots decodes to. */
  ghost function Reassemble(k: nat, m: nat, group: RecvGroup): (out: seq<Bytes>)
    requires LegalConfig(k, m) && Shaped(k, m, group) && group.received >= k
    ensures out == [] || |out| == k
  {
    var idx, l := FilledSlots(group.slots, k + m, k), SymbolLen(group.slots, k + m);
    FilledSlotsSize(group.slots, k + m, k);
    Truncate(Solved(k, idx, PaddedRows(group.slots, idx, l), l), group.dataLens)
  }

  ghost function TryDeliver(k: nat, m: nat, r: Receiver, g: U32): (res: (Receiver, seq<Bytes>))
    requires LegalConfig(k, m) && AllShaped(k, m, r)
    ensures AllShaped(k, m, res.0)
  {
    if g !in r.groups || r.groups[g].delivered || r.groups[g].received < k then (r, [])
    else
      var out := Reassemble(k, m, r.groups[g]);
      if out == [] then (r, []) else (Receiver(r.groups - {g}, r.order), out)
  }

  // ----- one datagram -----

  function ManifestLens(payload: Bytes, k: nat): (lens: seq<U16>)
    requires |payload| >= 2 * k
    ensures |lens| == k
  {
    seq(k, i requires 0 <= i < k => Join(payload[2 * i], payload[2 * i + 1]))
  }

  /** Stores the payload of a frame whose slot is still empty. */
  function Store(k: nat, m: nat, group: RecvGroup, index: Byte, payload: Bytes): (group': RecvGroup)
    requires |group.slots| == k + m && |group.dataLens| == k && index < k + m
    requires |payload| <= MAX_U16 && (index >= k ==> |payload| >= 2 * k)
  {
    if index < k then
      group.(slots := group.slots[index := Some(payload)], dataLens := group.dataLens[index := |payload|],
             received := group.received + 1)
    else
      group.(slots := group.slots[index := Some(payload[2 * k..])], dataLens := ManifestLens(payload, k),
             received := group.received + 1)
  }

  lemma {:induction false} CountAfterFill(slots: seq<Option<Bytes>>, i: nat, value: Bytes, n: nat)
    requires i < |slots| && slots[i].None? && n <= |slots|
    ensures CountFilled(slots[i := Some(value)], n) == CountFilled(slots, n) + if i < n then 1 else 0
  {
    if n > 0 { CountAfterFill(slots, i, value, n - 1); }
  }

  lemma StoreShaped(k: nat, m: nat, group: RecvGroup, index: Byte, payload: Bytes)
    requires Shaped(k, m, group) && index < k + m && group.slots[index].None?
    requires |payload| <= MAX_U16 && (index >= k ==> |payload| >= 2 * k)
    ensures Shaped(k, m, Store(k, m, group, index, payload))
  {
    CountAfterFill(group.slots, index, if index < k then payload else payload[2 * k..], k + m);
  }

  lemma {:induction false} CountNone(n: nat, slots: seq<Option<Bytes>>)
    requires n <= |slots| && forall i :: 0 <= i < n ==> slots[i].None?
    ensures CountFilled(slots, n) == 0
  {
    if n > 0 { CountNone(n - 1, slots); }
  }

  lemma {:induction false} EvictKeeps(r: Receiver, keep: U32)
    ensures Evict(r, keep).groups.Keys <= r.groups.Keys
    ensures forall g :: g in Evict(r, keep).groups ==> Evict(r, keep).groups[g] == r.groups[g]
    ensures keep in r.groups ==> keep in Evict(r, keep).groups
    decreases |r.order|
  {
    if |r.order| > MAX_RECEIVE_GROUPS {
      var stale := r.order[0];
      EvictKeeps(Receiver(if stale != keep then r.groups - {stale} else r.groups, r.order[1..]), keep);
    }
  }

  /** Looks the group up, and registers it when this is its first frame. */
  function Register(k: nat, m: nat, r: Receiver, g: U32): (r': Receiver)
    requires 1 <= k && forall g :: g in r.groups ==> r.groups[g].k == k
    ensures g in r'.groups
    ensures g in r.groups ==> r' == r
    ensures g !in r.groups ==> r'.groups[g] == FreshGroup(k, m)
  {
    if g in r.groups then r
    else
      EvictKeeps(Receiver(r.groups[g := FreshGroup(k, m)], r.order + [g]), g);
      Remember(Receiver(r.groups[g := FreshGroup(k, m)], r.order), g)
  }

  lemma RegisterShaped(k: nat, m: nat, r: Receiver, g: U32)
    requires LegalConfig(k, m) && AllShaped(k, m, r)
    ensures AllShaped(k, m, Register(k, m, r, g))
  {
    CountNone(k + m, FreshGroup(k, m).slots);
    EvictKeeps(Receiver(r.groups[g := FreshGroup(k, m)], r.order + [g]), g);
  }

  /** What a datagram amounts to: nothing, or a frame for the group table. */
  datatype Event = Junk | Packet(groupId: U32, index: Byte, payload: Bytes)

  predicate ValidEvent(k: nat, m: nat, e: Event)
  {
    e.Packet? ==> e.index < k + m && |e.payload| <= MAX_U16
  }

  function EventOf(k: nat, m: nat, d: Bytes): (e: Event)
    ensures ValidEvent(k, m, e)
  {
    match ParseHeader(d)
    case None => Junk
    case Some(h) =>
      if h.numData != k || h.numRoots != m || h.index >= k + m || |d| < HEADER_SIZE + h.dataLen then Junk
      else Packet(h.groupId, h.index, d[HEADER_SIZE..HEADER_SIZE + h.dataLen])
  }

  /** A header with this k and m, the payload that it announces, and anything after it. */
  ghost predicate IsFrameFor(k: Byte, m: Byte, d: Bytes, g: U32, index: Byte, payload: Bytes)
  {
    && index < k as int + m as int && |payload| <= MAX_U16
    && exists rest :: d == MakeHeader(Header(g, index, k, m, |payload|)) + payload + rest
  }

  lemma EventIsFrame(k: Byte, m: Byte, d: Bytes, g: U32, index: Byte, payload: Bytes)
    requires EventOf(k, m, d) == Packet(g, index, payload)
    ensures IsFrameFor(k, m, d, g, index, payload)
  {
    var h := ParseHeader(d).value;
    assert h == Header(g, index, k, m, |payload|);
    MakeOfParse(d);
    CutTwice(d, MakeHeader(h), |payload|);
  }

  lemma CutTwice(d: Bytes, head: Bytes, n: nat)
    requires |d| >= |head| + n && d == head + d[|head|..]
    ensures d == head + d[|head|..|head| + n] + d[|head| + n..]
  {
    assert d[|head|..] == d[|head|..|head| + n] + d[|head| + n..];
  }

  lemma FrameIsEvent(k: Byte, m: Byte, d: Bytes, g: U32, index: Byte, payload: Bytes)
    requires IsFrameFor(k, m, d, g, index, payload)
    ensures EventOf(k, m, d) == Packet(g, index, payload)
  {
    var h := Header(g, index, k, m, |payload|);
    var rest :| d == MakeHeader(h) + payload + rest;
    assert d == MakeHeader(h) + (payload + rest);
    ParseOfMake(h, payload + rest);
    assert d[HEADER_SIZE..HEADER_SIZE + |payload|] == payload;
  }

  /** A datagram reaches the group table if and only if it is such a frame. */
  lemma EventIff(k: Byte, m: Byte, d: Bytes, g: U32, index: Byte, payload: Bytes)
    ensures EventOf(k, m, d) == Packet(g, index, payload) <==> IsFrameFor(k, m, d, g, index, payload)
  {
    if EventOf(k, m, d) == Packet(g, index, payload) {
      EventIsFrame(k, m, d, g, index, payload);
    }
    if IsFrameFor(k, m, d, g, index, payload) {
      FrameIsEvent(k, m, d, g, index, payload);
    }
  }

  /** A duplicate, a frame of a delivered group, or a parity frame too short for its manifest. */
  predicate Ignored(k: nat, m: nat, group: RecvGroup, index: Byte, payload: Bytes)
    requires |group.slots| == k + m && index < k + m
  {
    group.delivered || group.slots[index].Some? || (index >= k && |payload| < 2 * k)
  }

  ghost function Accept(k: nat, m: nat, r: Receiver, g: U32, index: Byte, payload: Bytes): (res: (Receiver, seq<Bytes>))
    requires LegalConfig(k, m) && AllShaped(k, m, r) && g in r.groups && index < k + m && |payload| <= MAX_U16
    ensures AllShaped(k, m, res.0)
  {
    if Ignored(k, m, r.groups[g], index, payload) then (r, [])
    else
      StoreShaped(k, m, r.groups[g], index, payload);
      TryDeliver(k, m, r.(groups := r.groups[g := Store(k, m, r.groups[g], index, payload)]), g)
  }

  ghost function Handle(k: nat, m: nat, r: Receiver, e: Event): (res: (Receiver, seq<Bytes>))
    requires LegalConfig(k, m) && AllShaped(k, m, r) && ValidEvent(k, m, e)
    ensures AllShaped(k, m, res.0)
  {
    match e
    case Junk => (r, [])
    case Packet(g, index, payload) =>
      RegisterShaped(k, m, r, g);
      Accept(k, m, Register(k, m, r, g), g, index, payload)
  }

  ghost function Decode(k: nat, m: nat, r: Receiver, d: Bytes): (res: (Receiver, seq<Bytes>))
    requires LegalConfig(k, m) && AllShaped(k, m, r)
    ensures AllShaped(k, m, res.0)
  {
    Handle(k, m, r, EventOf(k, m, d))
  }

  // ----- runs -----

  type Events = seq<Event>

  ghost predicate ValidEvents(k: nat, m: nat, es: Events)
  {
    forall t :: 0 <= t < |es| ==> ValidEvent(k, m, es[t])
  }

  /** The final state, and what each event returned. */
  ghost function Run(k: nat, m: nat, r: Receiver, es: Events): (res: (Receiver, seq<seq<Bytes>>))
    requires LegalConfig(k, m) && AllShaped(k, m, r) && ValidEvents(k, m, es)
    ensures AllShaped(k, m, res.0) && |res.1| == |es|
  {
    if es == [] then (r, [])
    else
      var last := |es| - 1;
      var before := Run(k, m, r, es[..last]);
      var step := Handle(k, m, before.0, es[last]);
      (step.0, before.1 + [step.1])
  }

  function EventsOf(k: nat, m: nat, ds: seq<Bytes>): (es: Events)
    ensures |es| == |ds| && ValidEvents(k, m, es)
  {
    seq(|ds|, t requires 0 <= t < |ds| => EventOf(k, m, ds[t]))
  }

  /** A run over raw datagrams. */
  ghost function DecodeAll(k: nat, m: nat, r: Receiver, ds: seq<Bytes>): (res: (Receiver, seq<seq<Bytes>>))
    requires LegalConfig(k, m) && AllShaped(k, m, r)
    ensures AllShaped(k, m, res.0) && |res.1| == |ds|
  {
    if ds == [] then (r, [])
    else
      var last := |ds| - 1;
      var before := DecodeAll(k, m, r, ds[..last]);
      var step := Decode(k, m, before.0, ds[last]);
      (step.0, before.1 + [step.1])
  }

  lemma {:induction false} DecodeAllIsRun(k: nat, m: nat, r: Receiver, ds: seq<Bytes>)
    requires LegalConfig(k, m) && AllShaped(k, m, r)
    ensures DecodeAll(k, m, r, ds) == Run(k, m, r, EventsOf(k, m, ds))
  {
    if ds != [] {
      var last := |ds| - 1;
      DecodeAllIsRun(k, m, r, ds[..last]);
      assert EventsOf(k, m, ds)[..last] == EventsOf(k, m, ds[..last]);
    }
  }
}
