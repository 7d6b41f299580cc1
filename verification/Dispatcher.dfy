/** Sniffing a connection in core/xray/app/dispatcher/default.go and sniffer.go: a reader that caches what
    it looks at, the list of sniffers that still may match, and the loop that tries twice. Clocks, the
    answers of the protocol sniffers and the chunks of the pipe are inputs. */
module Dispatcher {
  import opened Panel

  // ----- the stream -----

  /** One read of the pipe: it gives bytes, as many as there are up to `n`, or fails and gives none. */
  datatype Chunk = Gives(n: nat) | Fails(code: string)

  datatype Read = Data(mb: seq<byte>) | Failed(code: string)

  function Min(a: nat, b: nat): nat {
    if a <= b then a else b
  }

  class Pipe {
    var unread: seq<byte>

    constructor (unread: seq<byte>)
      ensures this.unread == unread
    {
      this.unread := unread;
    }

    method ReadMultiBuffer(chunk: Chunk) returns (r: Read)
      modifies this
      ensures chunk.Fails? ==> r == Failed(chunk.code) && unread == old(unread)
      ensures chunk.Gives? ==>
                var n := Min(chunk.n, |old(unread)|); r == Data(old(unread)[..n]) && unread == old(unread)[n..]
    {
      if chunk.Fails? {
        return Failed(chunk.code);
      }
      var n := if chunk.n <= |unread| then chunk.n else |unread|;
      r := Data(unread[..n]);
      unread := unread[n..];
    }
  }

  /** The payload buffer. */
  class Buffer {
    const cap: nat
    var bytes: seq<byte>

    constructor (cap: nat)
      ensures this.cap == cap && bytes == []
    {
      this.cap, bytes := cap, [];
    }
  }

  /** The cache and the pipe after a look that succeeds. */
  function Peeked(cache: seq<byte>, unread: seq<byte>, chunk: Chunk): (seq<byte>, seq<byte>)
    requires chunk.Gives?
  {
    var n := Min(chunk.n, |unread|);
    (cache + unread[..n], unread[n..])
  }

  class CachedReader {
    const reader: Pipe
    var cache: seq<byte>
    ghost var delivered: seq<byte>  // everything the outbound has read

    constructor (reader: Pipe)
      ensures this.reader == reader && cache == [] && delivered == []
    {
      this.reader, cache, delivered := reader, [], [];
    }

    /** What is not delivered yet. */
    ghost function Ahead(): (r: seq<byte>)
      reads this`cache, reader
      ensures |r| == |cache| + |reader.unread|
    {
      cache + reader.unread
    }

    /** What the client sent, or will have sent. */
    ghost function Stream(): seq<byte>
      reads this, reader
    {
      delivered + Ahead()
    }

    /** Looks ahead: the payload is the longest prefix of what is not delivered yet that was read and
        fits. */
    method Cache(b: Buffer, chunk: Chunk) returns (err: Option<string>)
      modifies this`cache, reader, b
      ensures Ahead() == old(Ahead()) && Stream() == old(Stream())
      ensures err.Some? <==> chunk.Fails?
      ensures err.Some? ==> err.value == chunk.code && cache == old(cache) && b.bytes == old(b.bytes)
      ensures err.None? ==>
                && (cache, reader.unread) == Peeked(old(cache), old(reader.unread), chunk)
                && |b.bytes| == Min(|cache|, b.cap) && b.bytes == Ahead()[..|b.bytes|]
    {
      var r := reader.ReadMultiBuffer(chunk);
      if r.Failed? {
        return Some(r.code);
      }
      if r.mb != [] {
        cache := cache + r.mb;
      }
      assert cache == old(cache) + r.mb;
      assert old(cache) + r.mb + reader.unread == old(cache) + (r.mb + reader.unread);
      b.bytes := [];
      var n := Min(|cache|, b.cap);
      b.bytes := cache[..n];
      return None;
    }

    method ReadInternal() returns (mb: Option<seq<byte>>)
      modifies this`cache
      ensures mb == (if old(cache) == [] then None else Some(old(cache))) && cache == []
    {
      if cache != [] {
        mb := Some(cache);
        cache := [];
        return;
      }
      return None;
    }

    /** ReadMultiBuffer and ReadMultiBufferTimeout differ only in how long the pipe may take. */
    method ReadMultiBuffer(chunk: Chunk) returns (r: Read)
      modifies this, reader
      ensures Stream() == old(Stream())
      ensures cache == []
      ensures r.Failed? ==> old(cache) == [] && chunk.Fails? && delivered == old(delivered)
      ensures r.Failed? ==> Ahead() == old(Ahead())
      ensures r.Data? ==> delivered == old(delivered) + r.mb && r.mb + Ahead() == old(Ahead())
      ensures old(cache) != [] ==> r == Data(old(cache)) && reader.unread == old(reader.unread)
      ensures old(cache) == [] && chunk.Fails? ==> r == Failed(chunk.code) && reader.unread == old(reader.unread)
      ensures old(cache) == [] && chunk.Gives? ==>
                var n := if chunk.n <= |old(reader.unread)| then chunk.n else |old(reader.unread)|;
                r == Data(old(reader.unread)[..n]) && reader.unread == old(reader.unread)[n..]
    {
      var mb := ReadInternal();
      if mb.Some? {
        delivered := delivered + mb.value;
        return Data(mb.value);
      }
      r := reader.ReadMultiBuffer(chunk);
      if r.Data? {
        delivered := delivered + r.mb;
      }
    }
  }

  // ----- runs of the reader -----

  datatype Op = Peek(chunk: Chunk) | Take(chunk: Chunk)

  /** How many bytes are cached after one call, and how many it delivers: a look caches what the pipe gives, a read
      delivers the cache, or what the pipe gives if there is none. */
  function After(op: Op, cached: nat, unread: nat): (r: (nat, nat))
    ensures r.0 + r.1 <= cached + unread
  {
    match op
    case Peek(Gives(n)) => (cached + Min(n, unread), 0)
    case Peek(Fails(_)) => (cached, 0)
    case Take(chunk) => (0, if cached > 0 then cached else if chunk.Gives? then Min(chunk.n, unread) else 0)
  }

  /** The same after all the calls. */
  function Counts(ops: seq<Op>, cached: nat, unread: nat): (r: (nat, nat))
    ensures r.0 + r.1 <= cached + unread
  {
    if ops == [] then (cached, 0)
    else
      var (c, d) := Counts(ops[..|ops| - 1], cached, unread);
      var (c', more) := After(ops[|ops| - 1], c, cached + unread - c - d);
      (c', d + more)
  }

  lemma CountsMore(ops: seq<Op>, i: nat, cached: nat, unread: nat)
    requires i < |ops|
    ensures var (c, d) := Counts(ops[..i], cached, unread);
            var (c', more) := After(ops[i], c, cached + unread - c - d);
            Counts(ops[..i + 1], cached, unread) == (c', d + more)
  {
    assert ops[..i + 1][..i] == ops[..i];
  }

  lemma Joins(a: seq<byte>, b: seq<byte>, c: seq<byte>)
    ensures a + (b + c) == a + b + c
  {
  }

  /** What a call delivers is taken off the front of what was not delivered yet. */
  method Call(r: CachedReader, b: Buffer, op: Op) returns (out: seq<byte>)
    modifies r, r.reader, b
    ensures r.delivered == old(r.delivered) + out
    ensures out + r.Ahead() == old(r.Ahead())
    ensures (|r.cache|, |out|) == After(op, |old(r.cache)|, |old(r.reader.unread)|)
  {
    out := [];
    match op {
      case Peek(chunk) => var err := r.Cache(b, chunk);
      case Take(chunk) =>
        var m := r.ReadMultiBuffer(chunk);
        if m.Data? {
          out := m.mb;
        }
    }
  }

  /** Any calls in any order: the bytes delivered are those of the stream, in order, none missing and none
      twice, and looking ahead delivers nothing. */
  method UseReader(r: CachedReader, b: Buffer, ops: seq<Op>) returns (out: seq<byte>)
    modifies r, r.reader, b
    ensures r.Stream() == old(r.Stream())
    ensures r.delivered == old(r.delivered) + out
    ensures out <= old(r.cache + r.reader.unread)
    ensures (|r.cache|, |out|) == Counts(ops, |old(r.cache)|, |old(r.reader.unread)|)
  {
    out := [];
    ghost var ahead := r.Ahead();
    assert ahead == r.cache + r.reader.unread;
    ghost var before := r.delivered;
    ghost var cached, unread := |r.cache|, |r.reader.unread|;
    assert Counts(ops[..0], cached, unread) == (cached, 0);
    hide Counts;
    hide After;
    hide CachedReader.Ahead;
    for i := 0 to |ops|
      invariant out + r.Ahead() == ahead
      invariant r.delivered == before + out
      invariant (|r.cache|, |out|) == Counts(ops[..i], cached, unread)
    {
      CountsMore(ops, i, cached, unread);
      var more := Call(r, b, ops[i]);
      Joins(out, more, r.Ahead());
      Joins(before, out, more);
      out := out + more;
    }
    assert ops[..|ops|] == ops;
    Joins(before, out, r.Ahead());
    assert r.Stream() == before + ahead;
    assert out <= ahead;
  }

  // ----- the sniffers -----

  datatype Network = TCP | UDP

  datatype SniffResult =
    | Plain(protocol: string, domain: string)
    | Composite(domainResult: SniffResult, protocolResult: SniffResult)
  {
    function Protocol(): string {
      if Plain? then protocol else protocolResult.Protocol()
    }

    function Domain(): string {
      if Plain? then domain else domainResult.Domain()
    }
  }

  /** What a protocol sniffer answers: a result, no clue yet, or something final. */
  datatype Answer = Found(result: SniffResult) | NoClue | NeedMoreData | NoResult

  datatype Entry = Entry(id: nat, metadata: bool, network: Network)

  datatype Err = Nil | ErrNoClue | ErrNeedMoreData | ErrUnknownContent | ErrTimeout | ErrDone | ErrRead(code: string)

  /** The answers of all sniffers to one payload. */
  type Answers = nat -> Answer

  predicate Matches(e: Entry, network: Network) {
    !e.metadata && e.network == network
  }

  /** The first result among the entries that match. */
  function FirstFound(es: seq<Entry>, network: Network, answers: Answers): Option<SniffResult> {
    if es == [] then None
    else if Matches(es[0], network) && answers(es[0].id).Found? then Some(answers(es[0].id).result)
    else FirstFound(es[1..], network, answers)
  }

  /** The entries that match and have no clue yet, in order. */
  function Pending(es: seq<Entry>, network: Network, answers: Answers): seq<Entry> {
    if es == [] then []
    else
      (if Matches(es[0], network) && answers(es[0].id) == NoClue then [es[0]] else [])
      + Pending(es[1..], network, answers)
  }

  lemma PendingEnds(es: seq<Entry>, network: Network, answers: Answers)
    ensures es[0..] == es && Pending(es[|es|..], network, answers) == [] && FirstFound(es[|es|..], network, answers) == None
  {
  }

  lemma PendingFrom(es: seq<Entry>, i: nat, network: Network, answers: Answers)
    requires i < |es|
    ensures var e := es[i];
            && Pending(es[i..], network, answers) ==
               (if Matches(e, network) && answers(e.id) == NoClue then [e] else []) + Pending(es[i + 1..], network, answers)
            && FirstFound(es[i..], network, answers) ==
               (if Matches(e, network) && answers(e.id).Found? then Some(answers(e.id).result)
                else FirstFound(es[i + 1..], network, answers))
  {
    assert es[i..][1..] == es[i + 1..];
  }

  /** The same for the sniffers that look at the connection's metadata; the others all stay. */
  function FirstMeta(es: seq<Entry>, answers: Answers): Option<SniffResult> {
    if es == [] then None
    else if es[0].metadata && answers(es[0].id).Found? then Some(answers(es[0].id).result)
    else FirstMeta(es[1..], answers)
  }

  function PendingMeta(es: seq<Entry>, answers: Answers): seq<Entry> {
    if es == [] then []
    else
      (if !es[0].metadata || answers(es[0].id) == NoClue then [es[0]] else []) + PendingMeta(es[1..], answers)
  }

  lemma PendingMetaEnds(es: seq<Entry>, answers: Answers)
    ensures es[0..] == es && PendingMeta(es[|es|..], answers) == [] && FirstMeta(es[|es|..], answers) == None
  {
  }

  lemma PendingMetaFrom(es: seq<Entry>, i: nat, answers: Answers)
    requires i < |es|
    ensures var e := es[i];
            && PendingMeta(es[i..], answers) ==
               (if !e.metadata || answers(e.id) == NoClue then [e] else []) + PendingMeta(es[i + 1..], answers)
            && FirstMeta(es[i..], answers) ==
               (if e.metadata && answers(e.id).Found? then Some(answers(e.id).result)
                else FirstMeta(es[i + 1..], answers))
  {
    assert es[i..][1..] == es[i + 1..];
  }

  /** A sniffer for content of this network that has found something. */
  predicate Finds(e: Entry, network: Network, answers: Answers) {
    !e.metadata && e.network == network && answers(e.id).Found?
  }

  /** There is a result exactly when some sniffer of the connection's network, metadata sniffers left out, has
      found something. */
  lemma {:induction false} FoundWhen(es: seq<Entry>, network: Network, answers: Answers)
    ensures FirstFound(es, network, answers).Some? <==> exists i :: 0 <= i < |es| && Finds(es[i], network, answers)
  {
    if es == [] {
    } else {
      var rest := es[1..];
      FoundWhen(rest, network, answers);
      if i :| 0 < i < |es| && Finds(es[i], network, answers) {
        assert Finds(rest[i - 1], network, answers);
      }
      if i :| 0 <= i < |rest| && Finds(rest[i], network, answers) {
        assert Finds(es[i + 1], network, answers);
      }
    }
  }

  /** It is that of the first such sniffer. */
  lemma {:induction false} FoundIsFirst(es: seq<Entry>, network: Network, answers: Answers, i: nat)
    requires i < |es| && Finds(es[i], network, answers)
    requires forall j :: 0 <= j < i ==> !Finds(es[j], network, answers)
    ensures FirstFound(es, network, answers) == Some(answers(es[i].id).result)
  {
    if i > 0 {
      assert !Finds(es[0], network, answers);
      var rest := es[1..];
      forall j | 0 <= j < i - 1 ensures !Finds(rest[j], network, answers) {
        assert !Finds(es[j + 1], network, answers);
      }
      FoundIsFirst(rest, network, answers, i - 1);
    }
  }

  /** Asked again are exactly the sniffers of the connection's network, metadata sniffers left out, that have no
      clue yet. */
  lemma {:induction false} PendingWhen(es: seq<Entry>, network: Network, answers: Answers, e: Entry)
    ensures e in Pending(es, network, answers) <==>
            e in es && !e.metadata && e.network == network && answers(e.id) == NoClue
  {
    if es == [] {
    } else {
      PendingWhen(es[1..], network, answers, e);
      assert es == [es[0]] + es[1..];
    }
  }

  lemma {:induction false} MetaIsFirst(es: seq<Entry>, answers: Answers)
    ensures FirstMeta(es, answers).Some? <==> exists i :: 0 <= i < |es| && es[i].metadata && answers(es[i].id).Found?
    ensures forall i :: 0 <= i < |es| && es[i].metadata && answers(es[i].id).Found?
                        && (forall j :: 0 <= j < i ==> !(es[j].metadata && answers(es[j].id).Found?)) ==>
              FirstMeta(es, answers) == Some(answers(es[i].id).result)
  {
    if es == [] {
    } else {
      var rest := es[1..];
      MetaIsFirst(rest, answers);
      assert forall i :: 1 <= i < |es| ==> es[i] == rest[i - 1];
      if i :| 0 <= i < |rest| && rest[i].metadata && answers(rest[i].id).Found? {
        assert es[i + 1].metadata && answers(es[i + 1].id).Found?;
      }
      if i :| 0 < i < |es| && es[i].metadata && answers(es[i].id).Found? {
        assert rest[i - 1].metadata && answers(rest[i - 1].id).Found?;
      }
      forall i | 0 < i < |es| && es[i].metadata && answers(es[i].id).Found?
                 && (forall j :: 0 <= j < i ==> !(es[j].metadata && answers(es[j].id).Found?))
        ensures FirstMeta(es, answers) == Some(answers(es[i].id).result)
      {
        assert rest[i - 1].metadata && answers(rest[i - 1].id).Found?;
        forall j | 0 <= j < i - 1 ensures !(rest[j].metadata && answers(rest[j].id).Found?) {
          assert !(es[j + 1].metadata && answers(es[j + 1].id).Found?);
        }
      }
    }
  }

  lemma {:induction false} PendingMetaWhen(es: seq<Entry>, answers: Answers, e: Entry)
    ensures e in PendingMeta(es, answers) <==> e in es && (!e.metadata || answers(e.id) == NoClue)
  {
    if es == [] {
    } else {
      PendingMetaWhen(es[1..], answers, e);
      assert es == [es[0]] + es[1..];
    }
  }

  /** Of two results put together, one decides the domain and the other the protocol. */
  lemma CompositeDecides(domain: SniffResult, protocol: SniffResult)
    ensures Composite(domain, protocol).Domain() == domain.Domain()
    ensures Composite(domain, protocol).Protocol() == protocol.Protocol()
    ensures domain.Plain? && protocol.Plain? ==>
              Composite(domain, protocol).Domain() == domain.domain && Composite(domain, protocol).Protocol() == protocol.protocol
  {
  }

  class Sniffer {
    var sniffer: seq<Entry>

    constructor (sniffer: seq<Entry>)
      ensures this.sniffer == sniffer
    {
      this.sniffer := sniffer;
    }

    /** A sniffer that needs more data counts as failed: the error for that is never returned. */
    method Sniff(answers: Answers, network: Network) returns (result: Option<SniffResult>, err: Err)
      modifies this
      ensures result == FirstFound(old(sniffer), network, answers)
      ensures result.Some? ==> err == Nil && sniffer == old(sniffer)
      ensures result.None? ==>
                var p := Pending(old(sniffer), network, answers);
                && err == (if p != [] then ErrNoClue else ErrUnknownContent)
                && sniffer == (if p != [] then p else old(sniffer))
    {
      hide Pending;
      hide FirstFound;
      PendingEnds(sniffer, network, answers);
      var pendingSniffer := [];
      for i := 0 to |sniffer|
        invariant sniffer == old(sniffer)
        invariant pendingSniffer + Pending(sniffer[i..], network, answers) == Pending(sniffer, network, answers)
        invariant FirstFound(sniffer[i..], network, answers) == FirstFound(sniffer, network, answers)
      {
        var si := sniffer[i];
        PendingFrom(sniffer, i, network, answers);
        if si.metadata || si.network != network {
          continue;
        }
        var a := answers(si.id);
        if a == NoClue {
          pendingSniffer := pendingSniffer + [si];
          continue;
        }
        if a.Found? {
          return Some(a.result), Nil;
        }
      }
      if pendingSniffer != [] {
        sniffer := pendingSniffer;
        return None, ErrNoClue;
      }
      return None, ErrUnknownContent;
    }

    method SniffMetadata(answers: Answers) returns (result: Option<SniffResult>, err: Err)
      modifies this
      ensures result == FirstMeta(old(sniffer), answers)
      ensures result.Some? ==> err == Nil && sniffer == old(sniffer)
      ensures result.None? ==>
                var p := PendingMeta(old(sniffer), answers);
                && err == (if p != [] then ErrNoClue else ErrUnknownContent)
                && sniffer == (if p != [] then p else old(sniffer))
    {
      hide PendingMeta;
      hide FirstMeta;
      PendingMetaEnds(sniffer, answers);
      var pendingSniffer := [];
      for i := 0 to |sniffer|
        invariant sniffer == old(sniffer)
        invariant pendingSniffer + PendingMeta(sniffer[i..], answers) == PendingMeta(sniffer, answers)
        invariant FirstMeta(sniffer[i..], answers) == FirstMeta(sniffer, answers)
      {
        var si := sniffer[i];
        PendingMetaFrom(sniffer, i, answers);
        if !si.metadata {
          pendingSniffer := pendingSniffer + [si];
          continue;
        }
        var a := answers(si.id);
        if a == NoClue {
          pendingSniffer := pendingSniffer + [si];
          continue;
        }
        if a.Found? {
          return Some(a.result), Nil;
        }
      }
      if pendingSniffer != [] {
        sniffer := pendingSniffer;
        return None, ErrNoClue;
      }
      return None, ErrUnknownContent;
    }
  }

  // ----- the retry loop -----

  const SNIFFING_TIME := 200  // milliseconds

  /** What one round meets: whether the context is done, what the pipe gives, how long that took and what
      the sniffers say to the payload. */
  datatype Round = Round(done: bool, chunk: Chunk, elapsed: int, answers: Answers)

  /** How the loop ends, with which list of sniffers and what in the cache. */
  datatype Outcome = Outcome(result: Option<SniffResult>, err: Err, sniffers: seq<Entry>, cache: seq<byte>)

  /** What the attempts from the `k`-th on come to. */
  function Attempts(es: seq<Entry>, network: Network, cache: seq<byte>, unread: seq<byte>, cap: nat,
                    oracle: nat -> Round, k: nat, time: int): Outcome
    decreases 2 - k
  {
    var now := oracle(k);
    if now.done then Outcome(None, ErrDone, es, cache)
    else if now.chunk.Fails? then Outcome(None, ErrRead(now.chunk.code), es, cache)
    else
      var (cache', unread') := Peeked(cache, unread, now.chunk);
      var shows := cache' != [] && cap > 0;
      var found := if shows then FirstFound(es, network, now.answers) else None;
      var pending := if shows then Pending(es, network, now.answers) else es;
      if found.Some? then Outcome(found, Nil, es, cache')
      else if shows && pending == [] then Outcome(None, ErrUnknownContent, es, cache')
      else if k + 1 >= 2 || time - now.elapsed <= 0 then Outcome(None, ErrTimeout, pending, cache')
      else Attempts(pending, network, cache', unread', cap, oracle, k + 1, time - now.elapsed)
  }

  /** A look that comes off: what is cached then, and whether there is anything to ask the sniffers about. */
  ghost predicate Looks(now: Round, cache: seq<byte>, unread: seq<byte>, cap: nat, cache': seq<byte>, unread': seq<byte>)
  {
    && !now.done && now.chunk.Gives? && cache' + unread' == cache + unread
    && |cache'| == |cache| + (if now.chunk.n <= |unread| then now.chunk.n else |unread|)
  }

  lemma PeekedLooks(now: Round, cache: seq<byte>, unread: seq<byte>, cap: nat)
    requires !now.done && now.chunk.Gives?
    ensures var p := Peeked(cache, unread, now.chunk);
            && Looks(now, cache, unread, cap, p.0, p.1)
            && forall c, u :: Looks(now, cache, unread, cap, c, u) ==> c == p.0 && u == p.1
  {
    var n := Min(now.chunk.n, |unread|);
    assert cache + unread == (cache + unread[..n]) + unread[n..];
    forall c, u | Looks(now, cache, unread, cap, c, u) ensures c == cache + unread[..n] && u == unread[n..] {
      assert c == (c + u)[..|c|] && u == (c + u)[|c|..];
    }
  }

  /** The last look a connection gets: a result if a sniffer has one, an end if none may have one any more, and
      else a timeout. */
  ghost predicate LastLook(o: Outcome, es: seq<Entry>, network: Network, now: Round, cache: seq<byte>, shows: bool) {
    && o.cache == cache
    && (shows && FirstFound(es, network, now.answers).Some? ==>
          o.result == FirstFound(es, network, now.answers) && o.err == Nil && o.sniffers == es)
    && (shows && FirstFound(es, network, now.answers).None? && Pending(es, network, now.answers) == [] ==>
          o.result == None && o.err == ErrUnknownContent && o.sniffers == es)
    && (shows && FirstFound(es, network, now.answers).None? && Pending(es, network, now.answers) != [] ==>
          o.result == None && o.err == ErrTimeout && o.sniffers == Pending(es, network, now.answers))
    && (!shows ==> o.result == None && o.err == ErrTimeout && o.sniffers == es)
  }

  lemma SecondLook(es: seq<Entry>, network: Network, cache: seq<byte>, unread: seq<byte>, cap: nat, oracle: nat -> Round,
                   time: int, cache': seq<byte>, unread': seq<byte>)
    requires Looks(oracle(1), cache, unread, cap, cache', unread')
    ensures LastLook(Attempts(es, network, cache, unread, cap, oracle, 1, time), es, network, oracle(1), cache',
                     cache' != [] && cap > 0)
  {
    PeekedLooks(oracle(1), cache, unread, cap);
    hide FirstFound;
    hide Pending;
    hide Peeked;
  }

  lemma FirstLook(es: seq<Entry>, network: Network, cache: seq<byte>, unread: seq<byte>, cap: nat, oracle: nat -> Round,
                  cache': seq<byte>, unread': seq<byte>)
    requires Looks(oracle(0), cache, unread, cap, cache', unread')
    ensures var o := Attempts(es, network, cache, unread, cap, oracle, 0, SNIFFING_TIME);
            var shows := cache' != [] && cap > 0;
            var found := shows && FirstFound(es, network, oracle(0).answers).Some?;
            var over := shows && Pending(es, network, oracle(0).answers) == [];
            if found || over || oracle(0).elapsed >= 200 then LastLook(o, es, network, oracle(0), cache', shows)
            else o == Attempts(if shows then Pending(es, network, oracle(0).answers) else es, network, cache', unread', cap,
                               oracle, 1, 200 - oracle(0).elapsed)
  {
    PeekedLooks(oracle(0), cache, unread, cap);
    hide FirstFound;
    hide Pending;
    hide Peeked;
  }

  /** How a connection is sniffed. If the first look finds something, or nothing can be found any more, or it
      took 200 milliseconds, it is the only one. Else a second look follows, at all that is cached by then and
      with the sniffers that had no clue, or with all if there was nothing to show them; and no third. */
  lemma TwoLooks(es: seq<Entry>, network: Network, cache: seq<byte>, unread: seq<byte>, cap: nat, oracle: nat -> Round,
                 cache1: seq<byte>, unread1: seq<byte>, cache2: seq<byte>, unread2: seq<byte>)
    requires Looks(oracle(0), cache, unread, cap, cache1, unread1) && Looks(oracle(1), cache1, unread1, cap, cache2, unread2)
    ensures var o := Attempts(es, network, cache, unread, cap, oracle, 0, SNIFFING_TIME);
            var shows := cache1 != [] && cap > 0;
            var found := shows && FirstFound(es, network, oracle(0).answers).Some?;
            var over := shows && Pending(es, network, oracle(0).answers) == [];
            if found || over || oracle(0).elapsed >= 200 then LastLook(o, es, network, oracle(0), cache1, shows)
            else LastLook(o, if shows then Pending(es, network, oracle(0).answers) else es, network, oracle(1), cache2,
                          cache2 != [] && cap > 0)
  {
    FirstLook(es, network, cache, unread, cap, oracle, cache1, unread1);
    SecondLook(if cache1 != [] && cap > 0 then Pending(es, network, oracle(0).answers) else es, network, cache1, unread1,
               cap, oracle, 200 - oracle(0).elapsed, cache2, unread2);
    hide FirstFound;
    hide Pending;
    hide Attempts;
    hide LastLook;
    hide Looks;
  }

  /** A look that fails, the first or the second, ends the sniffing with its error and nothing lost. */
  lemma FailedLook(es: seq<Entry>, network: Network, cache: seq<byte>, unread: seq<byte>, cap: nat, oracle: nat -> Round,
                   k: nat, time: int)
    requires k < 2 && (oracle(k).done || oracle(k).chunk.Fails?)
    ensures Attempts(es, network, cache, unread, cap, oracle, k, time) ==
            Outcome(None, if oracle(k).done then ErrDone else ErrRead(oracle(k).chunk.code), es, cache)
  {
  }

  /** Whatever the clock and the sniffers do, the loop looks at the stream at most twice, and it delivers
      nothing. The only way round the attempt counter would be a sniffer asking for more data. */
  method SniffContent(cReader: CachedReader, payload: Buffer, sniffer: Sniffer, network: Network, oracle: nat -> Round)
    returns (result: Option<SniffResult>, err: Err, ghost rounds: nat)
    modifies cReader`cache, cReader.reader, payload, sniffer
    ensures cReader.Stream() == old(cReader.Stream())
    ensures rounds <= 2
    ensures result.Some? <==> err == Nil
    ensures err != ErrNoClue && err != ErrNeedMoreData
    ensures Outcome(result, err, sniffer.sniffer, cReader.cache) ==
            Attempts(old(sniffer.sniffer), network, old(cReader.cache), old(cReader.reader.unread), payload.cap,
                     oracle, 0, SNIFFING_TIME)
  {
    hide FirstFound;
    hide Pending;
    hide Peeked;
    var cacheDeadline := SNIFFING_TIME;
    var totalAttempt := 0;
    rounds := 0;
    while true
      invariant cReader.Stream() == old(cReader.Stream())
      invariant totalAttempt == rounds <= 1
      invariant Attempts(sniffer.sniffer, network, cReader.cache, cReader.reader.unread, payload.cap, oracle,
                         totalAttempt, cacheDeadline)
                == Attempts(old(sniffer.sniffer), network, old(cReader.cache), old(cReader.reader.unread), payload.cap,
                            oracle, 0, SNIFFING_TIME)
      decreases 2 - totalAttempt
    {
      var now := oracle(totalAttempt);
      if now.done {
        return None, ErrDone, rounds;
      }
      rounds := rounds + 1;
      var readErr := cReader.Cache(payload, now.chunk);
      if readErr.Some? {
        return None, ErrRead(readErr.value), rounds;
      }
      cacheDeadline := cacheDeadline - now.elapsed;
      if payload.bytes != [] {
        result, err := sniffer.Sniff(now.answers, network);
        match err {
          case ErrNoClue => totalAttempt := totalAttempt + 1;
          case ErrNeedMoreData => assert false;
          case _ => return result, err, rounds;
        }
      } else {
        totalAttempt := totalAttempt + 1;
      }
      if totalAttempt >= 2 || cacheDeadline <= 0 {
        return None, ErrTimeout, rounds;
      }
    }
  }

  /** The whole of sniffer(): a result of the metadata wins over a failure of the content, and both
      together make a composite. The client's stream stays as it was, whatever comes out. */
  method SniffConnection(cReader: CachedReader, sniffer: Sniffer, metadataOnly: bool, network: Network,
                         metaAnswers: Answers, oracle: nat -> Round)
    returns (result: Option<SniffResult>, err: Err)
    modifies cReader`cache, cReader.reader, sniffer
    ensures cReader.Stream() == old(cReader.Stream())
    ensures result.Some? <==> err == Nil
    ensures err != ErrNeedMoreData
    ensures var es, m := old(sniffer.sniffer), FirstMeta(old(sniffer.sniffer), metaAnswers);
            var p := PendingMeta(es, metaAnswers);
            var left := if m.None? && p != [] then p else es;
            if metadataOnly then
              && cReader.cache == old(cReader.cache) && sniffer.sniffer == left && result == m
              && err == (if m.Some? then Nil else if p != [] then ErrNoClue else ErrUnknownContent)
            else
              var o := Attempts(left, network, old(cReader.cache), old(cReader.reader.unread), 32767, oracle, 0, SNIFFING_TIME);
              && cReader.cache == o.cache && sniffer.sniffer == o.sniffers
              && result == (if m.None? then o.result
                            else if o.err == Nil && o.result.Some? then Some(Composite(m.value, o.result.value)) else m)
              && err == (if m.Some? then Nil else o.err)
  {
    var payload := new Buffer(32767);
    var metaresult, metadataErr := sniffer.SniffMetadata(metaAnswers);
    if metadataOnly {
      return metaresult, metadataErr;
    }
    var contentResult, contentErr, rounds := SniffContent(cReader, payload, sniffer, network, oracle);
    if contentErr != Nil && metadataErr == Nil {
      return metaresult, Nil;
    }
    if contentErr == Nil && metadataErr == Nil {
      return Some(Composite(metaresult.value, contentResult.value)), Nil;
    }
    return contentResult, contentErr;
  }

  // ----- which sniffers are asked again -----

  /** The list after one no-clue result after another. */
  function Narrowed(es: seq<Entry>, network: Network, calls: seq<Answers>): seq<Entry> {
    if calls == [] then es else Pending(Narrowed(es, network, calls[..|calls| - 1]), network, calls[|calls| - 1])
  }

  predicate AlwaysNoClue(e: Entry, network: Network, calls: seq<Answers>) {
    Matches(e, network) && forall k :: 0 <= k < |calls| ==> calls[k](e.id) == NoClue
  }

  /** The entries that had no clue every time, in order. */
  function Survivors(es: seq<Entry>, network: Network, calls: seq<Answers>): seq<Entry> {
    if es == [] then []
    else (if AlwaysNoClue(es[0], network, calls) then [es[0]] else []) + Survivors(es[1..], network, calls)
  }

  lemma {:induction false} PendingSurvivors(es: seq<Entry>, network: Network, calls: seq<Answers>, last: Answers)
    ensures Pending(Survivors(es, network, calls), network, last) == Survivors(es, network, calls + [last])
  {
    if es == [] {
    } else {
      PendingSurvivors(es[1..], network, calls, last);
      var rest := Survivors(es[1..], network, calls);
      assert AlwaysNoClue(es[0], network, calls + [last]) <==>
             AlwaysNoClue(es[0], network, calls) && last(es[0].id) == NoClue by {
        assert (calls + [last])[|calls|] == last;
        assert forall k :: 0 <= k < |calls| ==> (calls + [last])[k] == calls[k];
      }
      assert ([es[0]] + rest)[1..] == rest;
      assert [] + rest == rest;
    }
  }

  lemma {:induction false} PendingIsSurvivors(es: seq<Entry>, network: Network, a: Answers)
    ensures Pending(es, network, a) == Survivors(es, network, [a])
  {
    if es == [] {
    } else {
      PendingIsSurvivors(es[1..], network, a);
      assert AlwaysNoClue(es[0], network, [a]) <==> Matches(es[0], network) && a(es[0].id) == NoClue by {
        assert [a][0] == a;
      }
    }
  }

  /** After any number of no-clue results the list holds, in their order, exactly the sniffers for this
      network that had no clue every time: one that once answered for good is never asked again. */
  lemma {:induction false} Narrowing(es: seq<Entry>, network: Network, calls: seq<Answers>)
    requires calls != []
    ensures Narrowed(es, network, calls) == Survivors(es, network, calls)
  {
    var n := |calls| - 1;
    if n == 0 {
      assert calls == [calls[0]] && calls[..0] == [];
      PendingIsSurvivors(es, network, calls[0]);
    } else {
      Narrowing(es, network, calls[..n]);
      PendingSurvivors(es, network, calls[..n], calls[n]);
      assert calls[..n] + [calls[n]] == calls;
    }
  }

  /** Asking the narrowed list gives the result the whole list would give when its final answers are no
      results: narrowing changes what is asked, not what is found. */
  lemma {:induction false} NarrowingFindsTheSame(es: seq<Entry>, network: Network, first: Answers, second: Answers)
    requires forall e :: e in es && Matches(e, network) && first(e.id) != NoClue ==> !second(e.id).Found?
    ensures FirstFound(Pending(es, network, first), network, second) == FirstFound(es, network, second)
  {
    if es == [] {
    } else {
      NarrowingFindsTheSame(es[1..], network, first, second);
      var rest := Pending(es[1..], network, first);
      assert es[0] in es;
      assert ([es[0]] + rest)[1..] == rest;
      assert [] + rest == rest;
    }
  }
}
