/**
 The erasure codec as the object that the transport uses: table-driven field arithmetic, the
 group-filling encoder, the elimination in place, and the receiver with bounded memory.
 */
module FecCodec {
  import opened GF256
  import opened Powers
  import opened LinearAlgebra
  import opened Cauchy
  import opened FecWire
  import opened FecFrames
  import opened FecReceiver

  datatype EncodeResult = Rejected | Encoded(dataFrame: Bytes, parityFrames: seq<Bytes>)

  /** exp holds the powers of x (twice over), log their exponents. */
  ghost predicate Tables(exp: seq<Byte>, log: seq<Byte>)
  {
    && |exp| == 512 && (forall i :: 0 <= i < 512 ==> exp[i] == Exp(i))
    && |log| == 256 && (forall a: Byte :: a != 0 ==> log[a] == Log(a))
  }

  /** The first n powers and their logarithms are in place. */
  ghost predicate Filled(exp: seq<Byte>, log: seq<Byte>, n: nat)
  {
    && n <= 255 && |exp| == 512 && |log| == 256
    && forall j :: 0 <= j < n ==> exp[j] == Exp(j) && log[Exp(j)] == j
  }

  lemma FillOne(exp: seq<Byte>, log: seq<Byte>, i: nat)
    requires i < 255 && Filled(exp, log, i)
    ensures Filled(exp[i := Exp(i)], log[Exp(i) := i], i + 1)
  {
    forall j | 0 <= j < i
      ensures Exp(j) != Exp(i)
    {
      ExpInjective(j, i);
    }
  }

  /** The first 255 powers and their logarithms. */
  method FillTables(exp: array<Byte>, log: array<Byte>)
    requires exp.Length == 512 && log.Length == 256 && exp != log
    modifies exp, log
    ensures Filled(exp[..], log[..], 255)
  {
    var x: nat := 1;
    for i := 0 to 255
      invariant x == Exp(i) && Filled(exp[..], log[..], i)
    {
      FillOne(exp[..], log[..], i);
      exp[i] := x;
      log[x] := i;
      x := 2 * x;
      if x >= 0x100 {
        x := Xor(x, POLYNOMIAL);
      }
      assert x == TimesX(Exp(i)) == Exp(i + 1);
    }
  }

  ghost predicate ArePowers(exp: seq<Byte>, n: nat)
  {
    n <= |exp| && forall j :: 0 <= j < n ==> exp[j] == Exp(j)
  }

  lemma DoubleOne(exp: seq<Byte>, i: nat)
    requires 255 <= i < |exp| && ArePowers(exp, i)
    ensures ArePowers(exp[i := exp[i - 255]], i + 1)
  {
    ExpPeriod(i - 255);
  }

  /** Repeats the powers, so that a sum of two logarithms needs no reduction. */
  method DoubleTable(exp: array<Byte>)
    requires exp.Length == 512 && ArePowers(exp[..], 255)
    modifies exp
    ensures ArePowers(exp[..], 512)
  {
    for i := 255 to 512
      invariant ArePowers(exp[..], i)
    {
      DoubleOne(exp[..], i);
      exp[i] := exp[i - 255];
    }
  }

  method BuildGfTables(exp: array<Byte>, log: array<Byte>)
    requires exp.Length == 512 && log.Length == 256 && exp != log
    modifies exp, log
    ensures Tables(exp[..], log[..])
  {
    FillTables(exp, log);
    ghost var l := log[..];
    assert forall a: Byte :: a != 0 ==> log[a] == Log(a) by {
      forall a: Byte | a != 0
        ensures log[a] == Log(a)
      {
        assert l[Exp(Log(a))] == Log(a);
      }
    }
    DoubleTable(exp);
    log[0] := 0;
  }

  class Codec {
    const k: nat
    const m: nat
    const gfExp: array<Byte>
    const gfLog: array<Byte>
    var enc: Matrix

    var sendGroupId: U32
    var sendSeq: nat
    var sendBuf: seq<Bytes>
    var sendLens: seq<U16>

    var recvGroups: map<U32, RecvGroup>
    var recvGroupOrder: seq<U32>

    ghost predicate TablesValid()
      reads gfExp, gfLog
    {
      Tables(gfExp[..], gfLog[..])
    }

    ghost predicate EncValid()
      reads this
    {
      && LegalConfig(k, m) && |enc| == m
      && forall j :: 0 <= j < m ==> enc[j] == EncodingRow(k, k + j)
    }

    ghost predicate Valid()
      reads this, gfExp, gfLog
    {
      && TablesValid() && EncValid()
      && sendSeq == |sendBuf| == |sendLens| < k
      && (forall i :: 0 <= i < sendSeq ==> Fits(k, sendBuf[i]) && sendLens[i] == |sendBuf[i]|)
      && AllShaped(k, m, Recv())
    }

    /** The receiving state as a value. */
    function Recv(): Receiver
      reads this
    {
      Receiver(recvGroups, recvGroupOrder)
    }

    constructor (k: nat, m: nat)
      requires LegalConfig(k, m)
      ensures Valid() && this.k == k && this.m == m
      ensures sendGroupId == 0 && sendBuf == [] && Recv() == NO_RECEIVER
    {
      this.k, this.m := k, m;
      gfExp := new Byte[512];
      gfLog := new Byte[256];
      enc := [];
      sendGroupId, sendSeq, sendBuf, sendLens := 0, 0, [], [];
      recvGroups, recvGroupOrder := map[], [];
      new;
      BuildGfTables(gfExp, gfLog);
      BuildEncMatrix();
    }

    // ----- field arithmetic -----

    method GfMul(a: Byte, b: Byte) returns (r: Byte)
      requires TablesValid()
      ensures r == Mul(a, b)
    {
      MulZero(a);
      MulZero(b);
      if a == 0 || b == 0 { return 0; }
      ExpAdd(Log(a), Log(b));
      r := gfExp[gfLog[a] as int + gfLog[b] as int];
    }

    method GfInv(a: Byte) returns (r: Byte)
      requires TablesValid() && a != 0
      ensures r == Inv(a)
    {
      InverseExists(a);
      InverseIsUnique(a, Exp(255 - Log(a)));
      r := gfExp[255 - gfLog[a]];
    }

    // ----- the encoding matrix -----

    method EncRow(j: nat) returns (row: Vector)
      requires TablesValid() && LegalConfig(k, m) && j < m
      ensures row == EncodingRow(k, k + j)
    {
      row := [];
      for i := 0 to k
        invariant |row| == i
        invariant forall c :: 0 <= c < i ==> row[c] == Entry(c, k + j)
      {
        var denom := Add(i, k + j);
        AddIsZero(i, k + j);
        var e := GfInv(denom);
        row := row + [e];
      }
    }

    method BuildEncMatrix()
      requires TablesValid() && LegalConfig(k, m)
      modifies this`enc
      ensures EncValid()
    {
      enc := [];
      for j := 0 to m
        invariant |enc| == j
        invariant forall r :: 0 <= r < j ==> enc[r] == EncodingRow(k, k + r)
      {
        var row := EncRow(j);
        enc := enc + [row];
      }
    }

    // ----- sending -----

    /** Adds coeff times the padded payload to every byte of the vector. */
    method Accumulate(start: Bytes, coeff: Byte, d: Bytes) returns (vec: Bytes)
      requires TablesValid()
      ensures |vec| == |start| && forall c :: 0 <= c < |start| ==> vec[c] == Add(start[c], Mul(coeff, PadAt(d, c)))
    {
      vec := start;
      for b := 0 to |start|
        invariant |vec| == |start|
        invariant forall c :: 0 <= c < b ==> vec[c] == Add(start[c], Mul(coeff, PadAt(d, c)))
        invariant forall c :: b <= c < |start| ==> vec[c] == start[c]
      {
        var p := GfMul(coeff, PadAt(d, b));
        vec := vec[b := Add(vec[b], p)];
      }
    }

    /** One parity vector: accumulates coefficient times payload, payload by payload. */
    method ParityRow(data: seq<Bytes>, j: nat, maxLen: nat) returns (vec: Bytes)
      requires TablesValid() && EncValid() && |data| == k && j < m && maxLen == MaxLen(data, k)
      ensures vec == ParityVector(k, data, j)
    {
      ghost var row, x := EncodingRow(k, k + j), DataMatrix(data, maxLen);
      vec := seq(maxLen, b => 0);
      for i := 0 to k
        invariant |vec| == maxLen
        invariant forall c :: 0 <= c < maxLen ==> vec[c] == Dot(row, Column(x, c), i)
      {
        vec := Accumulate(vec, enc[j][i], data[i]);
        assert forall c :: 0 <= c < maxLen ==> Column(x, c)[i] == PadAt(data[i], c);
      }
    }

    method LongestOf(data: seq<Bytes>) returns (maxLen: nat)
      ensures maxLen == MaxLen(data, |data|)
    {
      maxLen := 0;
      for i := 0 to |data|
        invariant maxLen == MaxLen(data, i)
      {
        maxLen := Max(maxLen, |data[i]|);
      }
    }

    method ComputeParity(data: seq<Bytes>) returns (vecs: seq<Bytes>)
      requires TablesValid() && EncValid() && |data| == k
      ensures |vecs| == m && forall j :: 0 <= j < m ==> vecs[j] == ParityVector(k, data, j)
    {
      var maxLen := LongestOf(data);
      vecs := [];
      for j := 0 to m
        invariant |vecs| == j
        invariant forall r :: 0 <= r < j ==> vecs[r] == ParityVector(k, data, r)
      {
        var vec := ParityRow(data, j, maxLen);
        vecs := vecs + [vec];
      }
    }

    /** The lengths of the payloads in the send buffer. */
    method SendManifest() returns (manifest: Bytes)
      requires |sendLens| == k
      ensures manifest == Manifest(sendLens, k)
    {
      manifest := [];
      for i := 0 to k
        invariant manifest == Manifest(sendLens, i)
      {
        manifest := manifest + [High(sendLens[i]), Low(sendLens[i])];
      }
    }

    /** The parity frames of the full send buffer. */
    method ParityFrames() returns (frames: seq<Bytes>)
      requires TablesValid() && EncValid() && IsGroup(k, sendBuf) && sendLens == Lengths(sendBuf)
      ensures |frames| == m && forall j :: 0 <= j < m ==> frames[j] == ParityFrame(k, m, sendGroupId, sendBuf, j)
    {
      var vecs := ComputeParity(sendBuf);
      frames := [];
      for j := 0 to m
        invariant |frames| == j
        invariant forall r :: 0 <= r < j ==> frames[r] == ParityFrame(k, m, sendGroupId, sendBuf, r)
      {
        var manifest := SendManifest();
        var payload := manifest + vecs[j];
        assert payload == ParityPayload(k, sendBuf, j);
        frames := frames + [MakeHeader(Header(sendGroupId, k + j, k, m, |payload|)) + payload];
      }
    }

    method Encode(payload: Bytes) returns (r: EncodeResult)
      requires Valid()
      modifies this`sendGroupId, this`sendSeq, this`sendBuf, this`sendLens
      ensures Valid()
      ensures r.Rejected? <==> 2 * k + |payload| > MAX_U16
      ensures r.Rejected? ==> sendGroupId == old(sendGroupId) && sendBuf == old(sendBuf)
      ensures r.Encoded? ==> r.dataFrame == DataFrame(k, m, old(sendGroupId), |old(sendBuf)|, payload)
      ensures r.Encoded? && |old(sendBuf)| + 1 < k ==>
                r.parityFrames == [] && sendGroupId == old(sendGroupId) && sendBuf == old(sendBuf) + [payload]
      ensures r.Encoded? && |old(sendBuf)| + 1 == k ==>
                && sendGroupId == (if old(sendGroupId) == 0xFFFF_FFFF then 0 else old(sendGroupId) + 1) && sendBuf == []
                && IsGroup(k, old(sendBuf) + [payload]) && |r.parityFrames| == m
                && forall j :: 0 <= j < m ==>
                     r.parityFrames[j] == ParityFrame(k, m, old(sendGroupId), old(sendBuf) + [payload], j)
    {
      if |payload| > MAX_U16 - 2 * k {
        return Rejected;
      }
      var dataFrame := MakeHeader(Header(sendGroupId, sendSeq, k, m, |payload|)) + payload;
      sendBuf := sendBuf + [payload];
      sendLens := sendLens + [|payload|];
      sendSeq := sendSeq + 1;
      var parityFrames: seq<Bytes> := [];
      if sendSeq == k {
        assert sendLens == Lengths(sendBuf);
        parityFrames := ParityFrames();
        sendGroupId := if sendGroupId == 0xFFFF_FFFF then 0 else sendGroupId + 1;
        sendSeq, sendBuf, sendLens := 0, [], [];
      }
      r := Encoded(dataFrame, parityFrames);
    }

    // ----- elimination -----

    method ScaleRow(row: Vector, f: Byte, from: nat) returns (r: Vector)
      requires TablesValid() && from <= |row|
      ensures r == ScaleFrom(row, f, from)
    {
      r := row;
      for c := from to |row|
        invariant |r| == |row|
        invariant forall i :: 0 <= i < |row| ==> r[i] == if from <= i < c then Mul(row[i], f) else row[i]
      {
        var p := GfMul(r[c], f);
        r := r[c := p];
      }
    }

    method AddMulRow(row: Vector, f: Byte, p: Vector, from: nat) returns (r: Vector)
      requires TablesValid() && |p| == |row| && from <= |row|
      ensures r == AddMulFrom(row, f, p, from)
    {
      r := row;
      for c := from to |row|
        invariant |r| == |row|
        invariant forall i :: 0 <= i < |row| ==> r[i] == if from <= i < c then Add(row[i], Mul(f, p[i])) else row[i]
      {
        var q := GfMul(f, p[c]);
        r := r[c := Add(r[c], q)];
      }
    }

    /** The rows of the encoding matrix for the received frames. */
    method SystemMatrix(indices: seq<nat>) returns (a: Matrix)
      requires TablesValid() && EncValid() && forall r :: 0 <= r < |indices| ==> indices[r] < k + m
      ensures a == EncodingRows(k, indices)
    {
      a := [];
      for row := 0 to |indices|
        invariant |a| == row
        invariant forall r :: 0 <= r < row ==> a[r] == EncodingRow(k, indices[r])
      {
        var idx := indices[row];
        if idx < k {
          a := a + [seq(k, i => 0)[idx := 1]];
        } else {
          a := a + [enc[idx - k]];
        }
      }
    }

    method FindPivot(a: Matrix, col: nat) returns (p: nat)
      requires IsMatrix(a, |a|, |a|) && col < |a|
      ensures p == Pivot(a, col, col)
    {
      p := col;
      while p < |a| && a[p][col] == 0
        invariant col <= p <= |a|
        invariant Pivot(a, col, p) == Pivot(a, col, col)
      {
        p := p + 1;
      }
    }

    /** Clears column col in every other row, on both sides of the system. */
    method EliminateColumn(a: Matrix, b: Matrix, col: nat, l: nat) returns (a': Matrix, b': Matrix)
      requires TablesValid() && IsMatrix(a, |a|, |a|) && col < |a| && IsMatrix(b, |a|, l)
      ensures a' == Eliminate(a, col) && b' == EliminateSide(b, a, col, l)
    {
      a', b' := a, b;
      for row := 0 to |a|
        invariant |a'| == |a| && |b'| == |a|
        invariant forall r :: 0 <= r < row ==> a'[r] == Eliminate(a, col)[r] && b'[r] == EliminateSide(b, a, col, l)[r]
        invariant forall r :: row <= r < |a| ==> a'[r] == a[r] && b'[r] == b[r]
        invariant a'[col] == a[col] && b'[col] == b[col]
      {
        if row != col && a'[row][col] != 0 {
          var factor := a'[row][col];
          var ra := AddMulRow(a'[row], factor, a'[col], col);
          var rb := AddMulRow(b'[row], factor, b'[col], 0);
          a', b' := a'[row := ra], b'[row := rb];
        }
      }
    }

    /** Brings the pivot row up and scales it to a leading one. */
    method NormalizeRow(a: Matrix, b: Matrix, col: nat, pivot: nat, l: nat) returns (a': Matrix, b': Matrix)
      requires TablesValid() && IsMatrix(a, |a|, |a|) && IsMatrix(b, |a|, l) && col <= pivot < |a| && a[pivot][col] != 0
      ensures a' == Normalize(a, col, pivot) && b' == NormalizeSide(b, a, col, pivot, l)
    {
      a', b' := a, b;
      if pivot != col {
        a' := a[col := a[pivot]][pivot := a[col]];
        b' := b[col := b[pivot]][pivot := b[col]];
      }
      var scale := GfInv(a'[col][col]);
      var ra := ScaleRow(a'[col], scale, col);
      var rb := ScaleRow(b'[col], scale, 0);
      a', b' := a'[col := ra], b'[col := rb];
    }

    /** Solves the system for the received frames; the empty list stands for a singular matrix. */
    method GaussDecode(indices: seq<nat>, received: Matrix, symbolLen: nat) returns (r: seq<Bytes>)
      requires TablesValid() && EncValid() && |indices| == k && IsMatrix(received, k, symbolLen)
      requires forall i :: 0 <= i < k ==> indices[i] < k + m
      ensures r == Solved(k, indices, received, symbolLen)
    {
      var a := SystemMatrix(indices);
      var b := received;
      for col := 0 to k
        invariant IsMatrix(a, k, k) && IsMatrix(b, k, symbolLen)
        invariant Gauss(a, b, col, symbolLen) == Gauss(EncodingRows(k, indices), received, 0, symbolLen)
      {
        var pivot := FindPivot(a, col);
        if pivot == k {
          return [];
        }
        a, b := NormalizeRow(a, b, col, pivot, symbolLen);
        a, b := EliminateColumn(a, b, col, symbolLen);
      }
      r := b;
    }

    // ----- receiving -----

    method RememberReceiveGroup(g: U32)
      modifies this`recvGroups, this`recvGroupOrder
      ensures Recv() == Remember(old(Recv()), g)
    {
      recvGroupOrder := recvGroupOrder + [g];
      while |recvGroupOrder| > MAX_RECEIVE_GROUPS
        invariant Evict(Recv(), g) == Remember(old(Recv()), g)
        decreases |recvGroupOrder|
      {
        var stale := recvGroupOrder[0];
        recvGroupOrder := recvGroupOrder[1..];
        if stale != g {
          recvGroups := recvGroups - {stale};
        }
      }
    }

    /** The first k filled slots, padded to a common length. */
    method CollectRows(slots: seq<Option<Bytes>>) returns (indices: seq<nat>, rows: Matrix, symbolLen: nat)
      requires |slots| == k + m && CountFilled(slots, k + m) >= k
      ensures indices == FilledSlots(slots, k + m, k) && symbolLen == SymbolLen(slots, k + m)
      ensures rows == PaddedRows(slots, indices, symbolLen)
      ensures |indices| == k && IsMatrix(rows, k, symbolLen)
    {
      symbolLen := 0;
      for i := 0 to k + m
        invariant symbolLen == SymbolLen(slots, i)
      {
        if slots[i].Some? {
          symbolLen := Max(symbolLen, |slots[i].value|);
        }
      }
      indices, rows := [], [];
      for i := 0 to k + m
        invariant indices == FilledSlots(slots, i, k)
        invariant rows == PaddedRows(slots, indices, symbolLen)
      {
        if |indices| < k && slots[i].Some? {
          indices := indices + [i];
          rows := rows + [Pad(slots[i].value, symbolLen)];
        }
      }
      FilledSlotsSize(slots, k + m, k);
    }

    method TruncateAll(x: seq<Bytes>, lens: seq<U16>) returns (out: seq<Bytes>)
      requires |x| <= |lens|
      ensures out == Truncate(x, lens)
    {
      out := [];
      for i := 0 to |x|
        invariant |out| == i
        invariant forall r :: 0 <= r < i ==> out[r] == Truncate(x, lens)[r]
      {
        var actual := if lens[i] <= |x[i]| then lens[i] else |x[i]|;
        out := out + [x[i][..actual]];
      }
    }

    /** Solves for the payloads of a group with k filled slots; empty when that fails. */
    method RecoverPayloads(group: RecvGroup) returns (out: seq<Bytes>)
      requires TablesValid() && EncValid() && Shaped(k, m, group) && group.received >= k
      ensures out == Reassemble(k, m, group)
    {
      var indices, rows, symbolLen := CollectRows(group.slots);
      var recovered := GaussDecode(indices, rows, symbolLen);
      out := TruncateAll(recovered, group.dataLens);
    }

    method TryDeliverGroup(g: U32) returns (out: seq<Bytes>)
      requires TablesValid() && EncValid() && AllShaped(k, m, Recv())
      modifies this`recvGroups
      ensures (Recv(), out) == TryDeliver(k, m, old(Recv()), g)
    {
      if g !in recvGroups {
        return [];
      }
      var group := recvGroups[g];
      if group.delivered || group.received < group.k {
        return [];
      }
      out := RecoverPayloads(group);
      if out == [] {
        return;
      }
      recvGroups := recvGroups - {g};
    }

    /** Registers the group of an incoming frame if it is new. */
    method EnsureGroup(g: U32)
      requires LegalConfig(k, m) && AllShaped(k, m, Recv())
      modifies this`recvGroups, this`recvGroupOrder
      ensures Recv() == Register(k, m, old(Recv()), g)
    {
      if g !in recvGroups {
        recvGroups := recvGroups[g := FreshGroup(k, m)];
        RememberReceiveGroup(g);
      }
    }

    /** The length manifest in front of a parity payload. */
    method ReadManifest(payload: Bytes) returns (lens: seq<U16>)
      requires |payload| >= 2 * k
      ensures lens == ManifestLens(payload, k)
    {
      lens := [];
      for i := 0 to k
        invariant |lens| == i
        invariant forall r :: 0 <= r < i ==> lens[r] == ManifestLens(payload, k)[r]
      {
        lens := lens + [Join(payload[2 * i], payload[2 * i + 1])];
      }
    }

    method DecodeDatagram(d: Bytes) returns (out: seq<Bytes>)
      requires Valid()
      modifies this`recvGroups, this`recvGroupOrder
      ensures Valid()
      ensures (Recv(), out) == Decode(k, m, old(Recv()), d)
    {
      var header := ParseHeader(d);
      if header.None? {
        return [];
      }
      var h := header.value;
      if h.numData != k || h.numRoots != m || h.index >= k + m || |d| < HEADER_SIZE + h.dataLen {
        return [];
      }
      out := AcceptFrame(h.groupId, h.index, d[HEADER_SIZE..HEADER_SIZE + h.dataLen]);
    }

    method AcceptFrame(g: U32, index: Byte, payload: Bytes) returns (out: seq<Bytes>)
      requires Valid() && index < k + m && |payload| <= MAX_U16
      modifies this`recvGroups, this`recvGroupOrder
      ensures Valid()
      ensures (Recv(), out) == Handle(k, m, old(Recv()), Packet(g, index, payload))
    {
      EnsureGroup(g);
      RegisterShaped(k, m, old(Recv()), g);
      var group := recvGroups[g];
      if group.delivered || group.slots[index].Some? {
        return [];
      }
      if index >= k {
        if |payload| < 2 * k {
          return [];
        }
        var lens := ReadManifest(payload);
        group := group.(dataLens := lens, slots := group.slots[index := Some(payload[2 * k..])]);
      } else {
        group := group.(dataLens := group.dataLens[index := |payload|], slots := group.slots[index := Some(payload)]);
      }
      group := group.(received := group.received + 1);
      StoreShaped(k, m, recvGroups[g], index, payload);
      recvGroups := recvGroups[g := group];
      out := TryDeliverGroup(g);
    }
  }
}
