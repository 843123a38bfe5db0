/** Write-ahead log: framed records, a commit marker per batch, and replay of
    exactly the batches that reached the log whole. */
module Wal {
  import opened Options

  newtype Byte = x: int | 0 <= x < 256

  const U32: nat := 0x1_0000_0000

  /** One journaled mutation; H stands for content hashes and N for version nodes. */
  datatype WalRecord<H, N> =
    | Data(hash: H, payload: seq<Byte>)
    | VNode(node: N)
    | DirMap(content: H, children: map<string, H>)
    | RefOp(refHash: H, delta: int, zone: nat, offset: nat, length: nat, stored: H)
    | HeadOp(root: H, ts: nat)
    | SnapshotOp(name: string, snapshot: H)
    | Commit(txn: nat)

  /** Serialisation and checksum. Nothing is asked of the checksum. */
  datatype Codec<!H, !N> = Codec(encode: WalRecord<H, N> -> seq<Byte>, decode: seq<Byte> -> Option<WalRecord<H, N>>, crc: seq<Byte> -> nat)

  ghost predicate CodecOk<H(!new), N(!new)>(c: Codec<H, N>)
  {
    && (forall r :: c.decode(c.encode(r)) == Some(r))
    && (forall b :: c.crc(b) < U32)
  }

  /** A committed batch: its transaction number and records. */
  datatype Txn<H, N> = Txn(id: nat, records: seq<WalRecord<H, N>>)

  // ---------------------------------------------------------------------
  // Frames
  // ---------------------------------------------------------------------

  /** Four bytes, most significant first; larger numbers are truncated. */
  function ToBe(n: nat): (b: seq<Byte>)
    ensures |b| == 4
  {
    [(n / 0x100_0000 % 256) as Byte, (n / 0x1_0000 % 256) as Byte, (n / 0x100 % 256) as Byte, (n % 256) as Byte]
  }

  function FromBe(b: seq<Byte>): nat
    requires |b| == 4
  {
    ((b[0] as int * 256 + b[1] as int) * 256 + b[2] as int) * 256 + b[3] as int
  }

  lemma BeRoundTrip(n: nat)
    requires n < U32
    ensures FromBe(ToBe(n)) == n
  {
    assert n / 0x1_0000 == 256 * (n / 0x100_0000) + n / 0x1_0000 % 256;
    assert n / 0x100 == 256 * (n / 0x1_0000) + n / 0x100 % 256;
  }

  /** The first byte in which two fields differ decides which number is smaller. */
  lemma FirstByteDecides(a: seq<Byte>, b: seq<Byte>, k: nat)
    requires |a| == |b| == 4 && k < 4 && a[..k] == b[..k] && a[k] < b[k]
    ensures FromBe(a) < FromBe(b)
  {
    forall i | 0 <= i < k ensures a[i] == b[i] { assert a[..k][i] == b[..k][i]; }
  }

  function Frame<H, N>(c: Codec<H, N>, r: WalRecord<H, N>): seq<Byte>
  {
    ToBe(|c.encode(r)|) + ToBe(c.crc(c.encode(r))) + c.encode(r)
  }

  function Frames<H, N>(c: Codec<H, N>, rs: seq<WalRecord<H, N>>): seq<Byte>
  {
    if rs == [] then [] else Frame(c, rs[0]) + Frames(c, rs[1..])
  }

  lemma {:induction false} FramesSnoc<H, N>(c: Codec<H, N>, rs: seq<WalRecord<H, N>>, r: WalRecord<H, N>)
    ensures Frames(c, rs + [r]) == Frames(c, rs) + Frame(c, r)
  {
    if rs == [] {
      assert rs + [r] == [r] && [r][1..] == [];
    } else {
      assert (rs + [r])[1..] == rs[1..] + [r];
      FramesSnoc(c, rs[1..], r);
    }
  }

  /** The bytes one commit appends. */
  function BatchBytes<H, N>(c: Codec<H, N>, t: Txn<H, N>): seq<Byte>
  {
    Frames(c, t.records + [Commit(t.id)])
  }

  function LogBytes<H, N>(c: Codec<H, N>, ts: seq<Txn<H, N>>): seq<Byte>
  {
    if ts == [] then [] else BatchBytes(c, ts[0]) + LogBytes(c, ts[1..])
  }

  lemma {:induction false} LogSnoc<H, N>(c: Codec<H, N>, ts: seq<Txn<H, N>>, t: Txn<H, N>)
    ensures LogBytes(c, ts + [t]) == LogBytes(c, ts) + BatchBytes(c, t)
  {
    if ts == [] {
      assert ts + [t] == [t] && [t][1..] == [];
    } else {
      assert (ts + [t])[1..] == ts[1..] + [t];
      LogSnoc(c, ts[1..], t);
    }
  }

  // ---------------------------------------------------------------------
  // Parsing
  // ---------------------------------------------------------------------

  /** The first frame, if it is complete and sound, and what follows it. */
  function Next<H, N>(c: Codec<H, N>, raw: seq<Byte>): Option<(WalRecord<H, N>, seq<Byte>)>
  {
    if |raw| < 8 then None
    else
      var n := FromBe(raw[..4]);
      if 8 + n > |raw| then None
      else if c.crc(raw[8..8 + n]) != FromBe(raw[4..8]) then None
      else match c.decode(raw[8..8 + n])
        case None => None
        case Some(r) => Some((r, raw[8 + n..]))
  }

  /** The committed batches of a log; `current` holds records since the last commit. */
  ghost function Parse<H, N>(c: Codec<H, N>, raw: seq<Byte>, current: seq<WalRecord<H, N>>): seq<Txn<H, N>>
    decreases |raw|
  {
    match Next(c, raw)
    case None => []
    case Some((r, rest)) =>
      if r.Commit? then [Txn(r.txn, current)] + Parse(c, rest, []) else Parse(c, rest, current + [r])
  }

  /** The record fits the length field. */
  ghost predicate Fits<H, N>(c: Codec<H, N>, r: WalRecord<H, N>)
  {
    |c.encode(r)| < U32
  }

  ghost predicate AllFit<H, N>(c: Codec<H, N>, t: Txn<H, N>)
  {
    (forall r :: r in t.records ==> Fits(c, r)) && Fits(c, Commit(t.id))
  }

  /** No commit marker among the batch's own records. */
  ghost predicate Plain<H, N>(t: Txn<H, N>)
  {
    forall r :: r in t.records ==> !r.Commit?
  }

  lemma WholeFrame<H(!new), N(!new)>(c: Codec<H, N>, r: WalRecord<H, N>, rest: seq<Byte>)
    requires CodecOk(c) && Fits(c, r)
    ensures Next(c, Frame(c, r) + rest) == Some((r, rest))
  {
    var body := c.encode(r);
    var raw := Frame(c, r) + rest;
    BeRoundTrip(|body|);
    BeRoundTrip(c.crc(body));
    assert raw[..4] == ToBe(|body|);
    assert raw[4..8] == ToBe(c.crc(body));
    assert raw[8..8 + |body|] == body;
    assert raw[8 + |body|..] == rest;
  }

  /** A frame cut short is not mistaken for a frame, whatever the checksum. */
  lemma TornFrame<H(!new), N(!new)>(c: Codec<H, N>, r: WalRecord<H, N>, rest: seq<Byte>, n: nat)
    requires Fits(c, r) && n < |Frame(c, r)|
    ensures Next(c, (Frame(c, r) + rest)[..n]) == None
  {
    var raw := (Frame(c, r) + rest)[..n];
    if n >= 8 {
      assert raw[..4] == ToBe(|c.encode(r)|);
      BeRoundTrip(|c.encode(r)|);
    }
  }

  /** A complete frame is taken exactly when its checksum is that of its body and the body decodes. */
  lemma SoundFrame<H, N>(c: Codec<H, N>, body: seq<Byte>, sum: nat, rest: seq<Byte>)
    requires |body| < U32 && sum < U32
    ensures Next(c, ToBe(|body|) + ToBe(sum) + body + rest) ==
      if sum == c.crc(body) && c.decode(body).Some? then Some((c.decode(body).value, rest)) else None
  {
    hide ToBe, FromBe;
    var raw := ToBe(|body|) + ToBe(sum) + body + rest;
    BeRoundTrip(|body|);
    BeRoundTrip(sum);
    assert raw[..4] == ToBe(|body|) && raw[4..8] == ToBe(sum);
    assert raw[8..8 + |body|] == body && raw[8 + |body|..] == rest;
  }

  /** A damaged frame ends the log: the batches before it are replayed, and nothing that follows is. */
  lemma DamageStopsReplay<H(!new), N(!new)>(c: Codec<H, N>, ts: seq<Txn<H, N>>, body: seq<Byte>, sum: nat, rest: seq<Byte>)
    requires CodecOk(c) && (forall t :: t in ts ==> AllFit(c, t) && Plain(t)) && |body| < U32 && sum < U32 && sum != c.crc(body)
    ensures Parse(c, LogBytes(c, ts) + (ToBe(|body|) + ToBe(sum) + body + rest), []) == ts
  {
    hide Frames, Next, CodecOk, ToBe;
    SoundFrame(c, body, sum, rest);
    BatchesThen(c, ts, ToBe(|body|) + ToBe(sum) + body + rest);
  }

  lemma {:induction false} BatchesThen<H(!new), N(!new)>(c: Codec<H, N>, ts: seq<Txn<H, N>>, tail: seq<Byte>)
    requires CodecOk(c) && forall t :: t in ts ==> AllFit(c, t) && Plain(t)
    ensures Parse(c, LogBytes(c, ts) + tail, []) == ts + Parse(c, tail, [])
    decreases |ts|
  {
    hide BatchBytes, Parse, AllFit, Plain, CodecOk;
    if ts == [] {
      assert LogBytes(c, ts) + tail == tail;
      assert ts + Parse(c, tail, []) == Parse(c, tail, []);
    } else {
      var first, rest := BatchBytes(c, ts[0]), LogBytes(c, ts[1..]) + tail;
      assert LogBytes(c, ts) + tail == first + rest;
      assert (first + rest)[..|first| + |rest|] == first + rest && rest[..|rest|] == rest;
      BatchesThen(c, ts[1..], tail);
      WholeFirst(c, ts[0], rest, |first| + |rest|);
      assert ts == [ts[0]] + ts[1..];
    }
  }

  // ---------------------------------------------------------------------
  // Prefixes of the log
  // ---------------------------------------------------------------------

  lemma {:induction false} WholeBatch<H(!new), N(!new)>(c: Codec<H, N>, rs: seq<WalRecord<H, N>>, id: nat, rest: seq<Byte>, current: seq<WalRecord<H, N>>)
    requires CodecOk(c) && AllFit(c, Txn(id, rs)) && Plain(Txn(id, rs))
    ensures Parse(c, Frames(c, rs + [Commit(id)]) + rest, current) == [Txn(id, current + rs)] + Parse(c, rest, [])
    decreases |rs|
  {
    hide CodecOk, Frame, Next;
    var all := rs + [Commit(id)];
    var tail := Frames(c, all[1..]);
    assert Frames(c, all) + rest == Frame(c, all[0]) + (tail + rest);
    WholeFrame(c, all[0], tail + rest);
    if rs == [] {
      assert all[1..] == [] && tail + rest == rest && current + rs == current;
    } else {
      assert all[1..] == rs[1..] + [Commit(id)];
      WholeBatch(c, rs[1..], id, rest, current + [rs[0]]);
      assert current + [rs[0]] + rs[1..] == current + rs;
    }
  }

  lemma {:induction false} TornBatch<H(!new), N(!new)>(c: Codec<H, N>, rs: seq<WalRecord<H, N>>, id: nat, rest: seq<Byte>, n: nat, current: seq<WalRecord<H, N>>)
    requires CodecOk(c) && AllFit(c, Txn(id, rs)) && Plain(Txn(id, rs)) && n < |Frames(c, rs + [Commit(id)])|
    ensures Parse(c, (Frames(c, rs + [Commit(id)]) + rest)[..n], current) == []
    decreases |rs|
  {
    var all := rs + [Commit(id)];
    var first, tail := Frame(c, all[0]), Frames(c, all[1..]);
    assert Frames(c, all) + rest == first + (tail + rest);
    if rs == [] { assert all[1..] == []; }
    if n < |first| {
      TornFrame(c, all[0], tail + rest, n);
    } else {
      assert (first + (tail + rest))[..n] == first + (tail + rest)[..n - |first|];
      WholeFrame(c, all[0], (tail + rest)[..n - |first|]);
      assert all[1..] == rs[1..] + [Commit(id)];
      TornBatch(c, rs[1..], id, rest, n - |first|, current + [rs[0]]);
    }
  }

  /** Replaying any byte prefix of a log gives exactly the batches wholly inside it. */
  lemma {:induction false} PrefixReplay<H(!new), N(!new)>(c: Codec<H, N>, ts: seq<Txn<H, N>>, n: nat, j: nat)
    requires CodecOk(c) && forall t :: t in ts ==> AllFit(c, t) && Plain(t)
    requires j <= |ts| && |LogBytes(c, ts[..j])| <= n <= |LogBytes(c, ts)|
    requires j < |ts| ==> n < |LogBytes(c, ts[..j + 1])|
    ensures Parse(c, LogBytes(c, ts)[..n], []) == ts[..j]
    decreases |ts|
  {
    hide BatchBytes, Parse, LogBytes, AllFit, Plain;
    if ts == [] {
      LogCons(c, ts);
      NothingParsed(c);
      assert LogBytes(c, ts)[..n] == [] && ts[..j] == [];
    } else {
      LogCons(c, ts);
      var t := ts[0];
      var first, rest := BatchBytes(c, t), LogBytes(c, ts[1..]);
      if j == 0 {
        OneBatch(c, ts);
        TornFirst(c, t, rest, n);
      } else {
        LogCons(c, ts[..j]);
        assert ts[..j][1..] == ts[1..][..j - 1];
        if j < |ts| {
          LogCons(c, ts[..j + 1]);
          assert ts[..j + 1][1..] == ts[1..][..j];
        }
        PrefixReplay(c, ts[1..], n - |first|, j - 1);
        WholeFirst(c, t, rest, n);
        assert ts[..j] == [t] + ts[1..][..j - 1];
      }
    }
  }

  lemma LogCons<H, N>(c: Codec<H, N>, ts: seq<Txn<H, N>>)
    ensures LogBytes(c, ts) == if ts == [] then [] else BatchBytes(c, ts[0]) + LogBytes(c, ts[1..])
  {
  }

  lemma NothingParsed<H, N>(c: Codec<H, N>)
    ensures Parse(c, [], []) == []
  {
  }

  lemma OneBatch<H, N>(c: Codec<H, N>, ts: seq<Txn<H, N>>)
    requires ts != []
    ensures LogBytes(c, ts[..1]) == BatchBytes(c, ts[0])
  {
    assert ts[..1] == [ts[0]] && [ts[0]][1..] == [];
    assert LogBytes(c, [ts[0]]) == BatchBytes(c, ts[0]) + [];
  }

  lemma TornFirst<H(!new), N(!new)>(c: Codec<H, N>, t: Txn<H, N>, rest: seq<Byte>, n: nat)
    requires CodecOk(c) && AllFit(c, t) && Plain(t) && n < |BatchBytes(c, t)|
    ensures Parse(c, (BatchBytes(c, t) + rest)[..n], []) == []
  {
    TornBatch(c, t.records, t.id, rest, n, []);
  }

  lemma WholeFirst<H(!new), N(!new)>(c: Codec<H, N>, t: Txn<H, N>, rest: seq<Byte>, n: nat)
    requires CodecOk(c) && AllFit(c, t) && Plain(t) && |BatchBytes(c, t)| <= n <= |BatchBytes(c, t)| + |rest|
    ensures Parse(c, (BatchBytes(c, t) + rest)[..n], []) == [t] + Parse(c, rest[..n - |BatchBytes(c, t)|], [])
  {
    hide Frames, Parse;
    var first := BatchBytes(c, t);
    assert (first + rest)[..n] == first + rest[..n - |first|];
    WholeBatch(c, t.records, t.id, rest[..n - |first|], []);
    assert [] + t.records == t.records;
  }

  /** How many whole batches lie in the first n bytes. */
  lemma {:induction false} WholeBatches<H, N>(c: Codec<H, N>, ts: seq<Txn<H, N>>, n: nat) returns (j: nat)
    requires n <= |LogBytes(c, ts)|
    ensures j <= |ts| && |LogBytes(c, ts[..j])| <= n && (j < |ts| ==> n < |LogBytes(c, ts[..j + 1])|)
    decreases |ts|
  {
    j := 0;
    assert ts[..0] == [];
    while j < |ts| && |LogBytes(c, ts[..j + 1])| <= n
      invariant j <= |ts| && |LogBytes(c, ts[..j])| <= n
    {
      j := j + 1;
    }
  }

  // ---------------------------------------------------------------------
  // When a round trip loses nothing
  // ---------------------------------------------------------------------

  ghost function Commits<H, N>(rs: seq<WalRecord<H, N>>): nat
  {
    if rs == [] then 0 else (if rs[0].Commit? then 1 else 0) + Commits(rs[1..])
  }

  lemma {:induction false} CommitsSnoc<H, N>(rs: seq<WalRecord<H, N>>, r: WalRecord<H, N>)
    ensures Commits(rs + [r]) == Commits(rs) + if r.Commit? then 1 else 0
  {
    if rs == [] {
      assert rs + [r] == [r] && [r][1..] == [];
    } else {
      assert (rs + [r])[1..] == rs[1..] + [r];
      CommitsSnoc(rs[1..], r);
    }
  }

  lemma {:induction false} PlainMeansNone<H, N>(rs: seq<WalRecord<H, N>>)
    ensures Commits(rs) == 0 <==> forall r :: r in rs ==> !r.Commit?
  {
    if rs != [] {
      PlainMeansNone(rs[1..]);
      assert rs == [rs[0]] + rs[1..];
    }
  }

  /** Each commit marker, wherever it stands, ends a transaction. */
  lemma {:induction false} ParseCounts<H(!new), N(!new)>(c: Codec<H, N>, rs: seq<WalRecord<H, N>>, rest: seq<Byte>, current: seq<WalRecord<H, N>>)
    requires CodecOk(c) && forall r :: r in rs ==> Fits(c, r)
    ensures exists last :: |Parse(c, Frames(c, rs) + rest, current)| == Commits(rs) + |Parse(c, rest, last)|
    decreases |rs|
  {
    if rs == [] {
      assert Frames(c, rs) + rest == rest;
      assert |Parse(c, Frames(c, rs) + rest, current)| == Commits(rs) + |Parse(c, rest, current)|;
    } else {
      var tail := Frames(c, rs[1..]) + rest;
      assert Frames(c, rs) + rest == Frame(c, rs[0]) + tail;
      WholeFrame(c, rs[0], tail);
      var next := if rs[0].Commit? then [] else current + [rs[0]];
      ParseCounts(c, rs[1..], rest, next);
      var last :| |Parse(c, tail, next)| == Commits(rs[1..]) + |Parse(c, rest, last)|;
      assert |Parse(c, Frames(c, rs) + rest, current)| == Commits(rs) + |Parse(c, rest, last)|;
    }
  }

  ghost function InnerCommits<H, N>(ts: seq<Txn<H, N>>): nat
  {
    if ts == [] then 0 else Commits(ts[0].records) + InnerCommits(ts[1..])
  }

  ghost function Flat<H, N>(ts: seq<Txn<H, N>>): seq<WalRecord<H, N>>
  {
    if ts == [] then [] else ts[0].records + [Commit(ts[0].id)] + Flat(ts[1..])
  }

  lemma {:induction false} FramesConcat<H, N>(c: Codec<H, N>, a: seq<WalRecord<H, N>>, b: seq<WalRecord<H, N>>)
    ensures Frames(c, a + b) == Frames(c, a) + Frames(c, b) && Commits(a + b) == Commits(a) + Commits(b)
  {
    if a == [] {
      assert a + b == b;
    } else {
      assert (a + b)[1..] == a[1..] + b;
      FramesConcat(c, a[1..], b);
    }
  }

  lemma {:induction false} FlatLog<H, N>(c: Codec<H, N>, ts: seq<Txn<H, N>>)
    ensures Frames(c, Flat(ts)) == LogBytes(c, ts) && Commits(Flat(ts)) == |ts| + InnerCommits(ts)
  {
    hide Frames, Commits;
    if ts == [] {
      FramesOfNone(c);
    } else {
      FlatLog(c, ts[1..]);
      FramesConcat(c, ts[0].records + [Commit(ts[0].id)], Flat(ts[1..]));
      CommitsSnoc(ts[0].records, Commit(ts[0].id));
    }
  }

  lemma FramesOfNone<H, N>(c: Codec<H, N>)
    ensures Frames(c, []) == [] && Commits<H, N>([]) == 0
  {
  }

  lemma {:induction false} FlatFits<H, N>(c: Codec<H, N>, ts: seq<Txn<H, N>>)
    requires forall t :: t in ts ==> AllFit(c, t)
    ensures forall r :: r in Flat(ts) ==> Fits(c, r)
  {
    hide Fits;
    if ts != [] {
      FlatFits(c, ts[1..]);
      assert AllFit(c, ts[0]);
    }
  }

  lemma {:induction false} NoInnerCommits<H, N>(ts: seq<Txn<H, N>>)
    ensures InnerCommits(ts) == 0 <==> forall t :: t in ts ==> Plain(t)
  {
    hide Commits;
    if ts != [] {
      NoInnerCommits(ts[1..]);
      PlainMeansNone(ts[0].records);
      assert ts == [ts[0]] + ts[1..];
      assert Plain(ts[0]) <==> Commits(ts[0].records) == 0;
    }
  }

  /** A batch with a commit marker of its own comes back as two transactions. */
  lemma InnerCommitSplits<H(!new), N(!new)>(c: Codec<H, N>)
    requires CodecOk(c) && Fits(c, Commit(7)) && Fits(c, Commit(1))
    ensures Parse(c, LogBytes(c, [Txn(1, [Commit(7)])]), []) == [Txn(7, []), Txn(1, [])]
  {
    hide CodecOk, Frame, Next;
    var t: Txn<H, N> := Txn(1, [Commit(7)]);
    assert [t][1..] == [] && LogBytes(c, [t]) == BatchBytes(c, t) + LogBytes(c, [t][1..]);
    var rs: seq<WalRecord<H, N>> := [Commit(7), Commit(1)];
    assert t.records + [Commit(t.id)] == rs && rs[1..] == [Commit(1)] && rs[1..][1..] == [];
    var second := Frame(c, rs[1]);
    assert Frames(c, rs[1..]) == second + Frames(c, []) == second && Frames(c, rs) == Frame(c, rs[0]) + second;
    assert LogBytes(c, [t]) == Frame(c, rs[0]) + second && second == second + [];
    WholeFrame(c, rs[0], second);
    WholeFrame(c, rs[1], []);
    NothingParsed(c);
  }

  /** Replay returns the committed batches if and only if none of them carries a commit marker of its own. */
  lemma RoundTrip<H(!new), N(!new)>(c: Codec<H, N>, ts: seq<Txn<H, N>>)
    requires CodecOk(c) && forall t :: t in ts ==> AllFit(c, t)
    ensures Parse(c, LogBytes(c, ts), []) == ts <==> forall t :: t in ts ==> Plain(t)
  {
    var log := LogBytes(c, ts);
    FlatLog(c, ts);
    FlatFits(c, ts);
    NoInnerCommits(ts);
    ParseCounts(c, Flat(ts), [], []);
    assert Frames(c, Flat(ts)) + [] == log;
    var last :| |Parse(c, log, [])| == Commits(Flat(ts)) + |Parse(c, [], last)|;
    assert Parse(c, [], last) == [];
    if forall t :: t in ts ==> Plain(t) {
      assert ts[..|ts|] == ts && log[..|log|] == log;
      PrefixReplay(c, ts, |log|, |ts|);
    }
  }

  // ---------------------------------------------------------------------
  // The log file
  // ---------------------------------------------------------------------

  class Wal<H(!new), N(!new)> {
    const codec: Codec<H, N>
    var file: seq<Byte>
    var nextTxn: nat
    var transactions: nat
    var records: nat
    var fsyncs: nat
    var bytesWritten: nat

    ghost var committed: seq<Txn<H, N>>

    ghost predicate Valid()
      reads this
    {
      CodecOk(codec) && file == LogBytes(codec, committed) && nextTxn == |committed| + 1
      && forall x :: 0 <= x < |committed| ==> committed[x].id == x + 1
    }

    constructor (c: Codec<H, N>)
      requires CodecOk(c)
      ensures Valid() && codec == c && committed == []
    {
      codec := c;
      file := [];
      nextTxn := 1;
      transactions, records, fsyncs, bytesWritten := 0, 0, 0, 0;
      committed := [];
    }

    /** Appends a batch as one transaction: all frames, then the commit marker, then one sync. */
    method CommitBatch(batch: seq<WalRecord<H, N>>) returns (txn: nat)
      requires Valid()
      modifies this
      ensures Valid() && txn == old(nextTxn) && committed == old(committed) + [Txn(txn, batch)]
      ensures old(file) <= file && fsyncs == old(fsyncs) + 1 && transactions == old(transactions) + 1
      ensures records == old(records) + |batch| + 1
    {
      hide CodecOk, LogBytes, Frames, ToBe;
      txn := nextTxn;
      nextTxn := nextTxn + 1;
      var frames := batch + [Commit(txn)];
      var out: seq<Byte> := [];
      FramesOfNone(codec);
      assert frames[..0] == [];
      for i := 0 to |frames|
        invariant out == Frames(codec, frames[..i])
        invariant file == old(file) && nextTxn == old(nextTxn) + 1 && committed == old(committed)
        invariant records == old(records) + i && fsyncs == old(fsyncs) && transactions == old(transactions)
      {
        assert frames[..i + 1] == frames[..i] + [frames[i]];
        FramesSnoc(codec, frames[..i], frames[i]);
        var payload := codec.encode(frames[i]);
        out := out + ToBe(|payload|) + ToBe(codec.crc(payload)) + payload;
        records := records + 1;
        if !frames[i].Commit? {
          bytesWritten := bytesWritten + |payload|;
        }
      }
      assert frames[..|frames|] == frames;
      file := file + out;
      transactions := transactions + 1;
      fsyncs := fsyncs + 1;
      LogSnoc(codec, committed, Txn(txn, batch));
      committed := committed + [Txn(txn, batch)];
    }

    /** Empties the log after a checkpoint. */
    method Reset()
      requires Valid()
      modifies `file, `nextTxn, `committed
      ensures Valid() && committed == []
    {
      file := [];
      nextTxn := 1;
      committed := [];
    }
  }

  /** One step of reading: the frame at a position. */
  lemma ParseAt<H, N>(c: Codec<H, N>, raw: seq<Byte>, pos: nat, current: seq<WalRecord<H, N>>, n: nat, body: seq<Byte>)
    requires pos + 8 <= |raw| && n == FromBe(raw[pos..pos + 4]) && pos + 8 + n <= |raw| && body == raw[pos + 8..pos + 8 + n]
    ensures c.crc(body) != FromBe(raw[pos + 4..pos + 8]) || c.decode(body).None? ==> Parse(c, raw[pos..], current) == []
    ensures c.crc(body) == FromBe(raw[pos + 4..pos + 8]) && c.decode(body).Some? ==>
      var r, rest := c.decode(body).value, raw[pos + 8 + n..];
      Parse(c, raw[pos..], current) == if r.Commit? then [Txn(r.txn, current)] + Parse(c, rest, []) else Parse(c, rest, current + [r])
  {
    hide FromBe;
    var here := raw[pos..];
    assert here[..4] == raw[pos..pos + 4] && here[4..8] == raw[pos + 4..pos + 8];
    assert here[8..8 + n] == body && here[8 + n..] == raw[pos + 8 + n..];
  }

  lemma ParseStops<H, N>(c: Codec<H, N>, raw: seq<Byte>, pos: nat, current: seq<WalRecord<H, N>>)
    requires pos <= |raw| && (pos + 8 <= |raw| ==> pos + 8 + FromBe(raw[pos..pos + 4]) > |raw|)
    ensures Parse(c, raw[pos..], current) == []
  {
    hide FromBe;
    assert pos + 8 <= |raw| ==> raw[pos..][..4] == raw[pos..pos + 4];
  }

  /** Reads the committed batches back; stops at the first frame that is not sound. */
  method Replay<H, N>(c: Codec<H, N>, raw: seq<Byte>) returns (txns: seq<Txn<H, N>>)
    ensures txns == Parse(c, raw, [])
  {
    hide Parse, FromBe;
    txns := [];
    var current: seq<WalRecord<H, N>> := [];
    var pos: nat := 0;
    assert raw[0..] == raw;
    while pos + 8 <= |raw|
      invariant pos <= |raw|
      invariant txns + Parse(c, raw[pos..], current) == Parse(c, raw, [])
      decreases |raw| - pos
    {
      var frameLen := FromBe(raw[pos..pos + 4]);
      var frameCrc := FromBe(raw[pos + 4..pos + 8]);
      var bodyStart := pos + 8;
      if bodyStart + frameLen > |raw| {
        ParseStops(c, raw, pos, current);
        return;
      }
      var body := raw[bodyStart..bodyStart + frameLen];
      ParseAt(c, raw, pos, current, frameLen, body);
      if c.crc(body) != frameCrc {
        return;
      }
      match c.decode(body) {
        case None => return;
        case Some(r) =>
          if r.Commit? {
            txns := txns + [Txn(r.txn, current)];
            current := [];
          } else {
            current := current + [r];
          }
      }
      pos := bodyStart + frameLen;
    }
    ParseStops(c, raw, pos, current);
  }
}
