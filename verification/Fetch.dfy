/**
 The streaming decode loop of the MUD fetcher: chunks of the response are pushed through a
 character decoder into a fixed buffer, which is emptied into the output whenever it is full.
 */
module Fetch {
  import opened Prelude

  type Byte = b: int | 0 <= b < 256

  const BUFFER: nat := 2048
  const MAX_LEN: nat := 10_000_000

  datatype FetchError = NetworkError | MudFileInvalid

  /** What the connection delivers: a chunk of the body, or an error that ends the fetch. */
  datatype Delivery = Chunk(bytes: seq<Byte>) | Broken

  // ---------------------------------------------------------------- what decoding means

  /**
   A decoder byte by byte: each byte yields some output or is malformed, and the end of input
   yields what was held back or is malformed.
   */
  datatype Decoder<!S> = Decoder(init: S, step: (S, Byte) -> Option<(S, seq<Byte>)>, tail: S -> Option<seq<Byte>>)

  function Run<S>(d: Decoder<S>, s: S, bytes: seq<Byte>): Option<(S, seq<Byte>)> {
    if bytes == [] then Some((s, []))
    else match d.step(s, bytes[0])
      case None => None
      case Some((s', out)) => Prefixed(out, Run(d, s', bytes[1..]))
  }

  function Prefixed<S>(out: seq<Byte>, rest: Option<(S, seq<Byte>)>): Option<(S, seq<Byte>)> {
    match rest
    case None => None
    case Some((s, more)) => Some((s, out + more))
  }

  /** Decoding a whole body at once. */
  function OneShot<S>(d: Decoder<S>, bytes: seq<Byte>): Option<seq<Byte>> {
    match Run(d, d.init, bytes)
    case None => None
    case Some((s, out)) =>
      match d.tail(s)
      case None => None
      case Some(rest) => Some(out + rest)
  }

  lemma {:induction false} RunConcat<S>(d: Decoder<S>, s: S, a: seq<Byte>, b: seq<Byte>)
    ensures Run(d, s, a + b) == match Run(d, s, a)
                                case None => None
                                case Some((s', out)) => Prefixed(out, Run(d, s', b))
  {
    if a == [] {
      assert a + b == b;
      assert Run(d, s, b).Some? ==> [] + Run(d, s, b).value.1 == Run(d, s, b).value.1;
    } else {
      assert (a + b)[1..] == a[1..] + b;
      match d.step(s, a[0]) {
        case None =>
        case Some((s', out)) =>
          RunConcat(d, s', a[1..], b);
          if Run(d, s', a[1..]).Some? {
            var (t, o1) := Run(d, s', a[1..]).value;
            if Run(d, t, b).Some? {
              assert out + (o1 + Run(d, t, b).value.1) == (out + o1) + Run(d, t, b).value.1;
            }
          }
      }
    }
  }

  // ---------------------------------------------------------------- the library underneath

  /** One call of `decode_to_str`: output buffer full or input empty, what was read, written and found. */
  datatype Call<S> = Call(full: bool, read: nat, written: seq<Byte>, next: S, hadErrors: bool)

  datatype Library<!S> = Library(decode: (S, seq<Byte>, nat) -> Call<S>, flush: (S, nat) -> Call<S>)

  /**
   The library decodes as `d` says, stopping wherever it likes as long as it never overruns the
   space it is given and makes progress when given a whole buffer.
   */
  ghost predicate Implements<S(!new)>(lib: Library<S>, d: Decoder<S>) {
    && (forall s, src, space :: GoodDecode(d, s, src, space, lib.decode(s, src, space)))
    && (forall s, space :: GoodFlush(d, s, space, lib.flush(s, space)))
  }

  ghost predicate GoodDecode<S>(d: Decoder<S>, s: S, src: seq<Byte>, space: nat, c: Call<S>) {
    && c.read <= |src| && |c.written| <= space
    && Run(d, s, src[..c.read]) == (if c.hadErrors then None else Some((c.next, c.written)))
    && (!c.full ==> c.read == |src|)
    && (c.full && !c.hadErrors && space == BUFFER ==> c.read > 0)
  }

  ghost predicate GoodFlush<S>(d: Decoder<S>, s: S, space: nat, c: Call<S>) {
    && |c.written| <= space
    && (c.hadErrors <==> d.tail(s).None?)
    && (!c.hadErrors && !c.full ==> d.tail(s).value == c.written)
    && (!c.hadErrors && c.full ==> d.tail(c.next).Some? && d.tail(s).value == c.written + d.tail(c.next).value)
    && (!c.hadErrors && c.full && space == BUFFER ==> |c.written| > 0)
  }

  /** Room for one more character, which the library may insist on before it calls the buffer not full. */
  const MARGIN: nat := 4

  /** The library never calls the buffer full when everything fits with a character to spare. */
  ghost predicate Thrifty<S(!new)>(lib: Library<S>, d: Decoder<S>) {
    forall s, src, space :: FitsWell(d, s, src, space) ==> !lib.decode(s, src, space).full
  }

  ghost predicate FitsWell<S>(d: Decoder<S>, s: S, src: seq<Byte>, space: int) {
    Run(d, s, src).Some? && |Run(d, s, src).value.1| + MARGIN <= space
  }

  // ---------------------------------------------------------------- how much decoding can grow

  /** Each byte adds at most `k` bytes of output or held-back output, of which at most `slack` is held back. */
  ghost predicate Expands<S(!new)>(d: Decoder<S>, k: nat, slack: nat, pending: S -> nat) {
    && k >= 1
    && (forall s :: pending(s) <= slack)
    && (forall s, b :: d.step(s, b).Some? ==>
          |d.step(s, b).value.1| + pending(d.step(s, b).value.0) <= k + pending(s))
    && (forall s :: d.tail(s).Some? ==> |d.tail(s).value| <= pending(s))
  }

  lemma {:induction false} RunGrowth<S(!new)>(d: Decoder<S>, s: S, bytes: seq<Byte>, k: nat, slack: nat, pending: S -> nat)
    requires Expands(d, k, slack, pending) && Run(d, s, bytes).Some?
    ensures |Run(d, s, bytes).value.1| + pending(Run(d, s, bytes).value.0) <= k * |bytes| + pending(s)
  {
    if bytes != [] {
      var (s', out) := d.step(s, bytes[0]).value;
      RunGrowth(d, s', bytes[1..], k, slack, pending);
      OneMore(k, |bytes[1..]|);
    }
  }

  /** Each byte adds at least one byte of output or held-back output, of which at most `slack` is held back. */
  ghost predicate NeverShrinks<S(!new)>(d: Decoder<S>, slack: nat, pending: S -> nat) {
    && (forall s :: pending(s) <= slack)
    && (forall s, b :: d.step(s, b).Some? ==>
          1 + pending(s) <= |d.step(s, b).value.1| + pending(d.step(s, b).value.0))
  }

  lemma {:induction false} RunKeepsSize<S(!new)>(d: Decoder<S>, s: S, bytes: seq<Byte>, slack: nat, pending: S -> nat)
    requires NeverShrinks(d, slack, pending) && Run(d, s, bytes).Some?
    ensures |bytes| + pending(s) <= |Run(d, s, bytes).value.1| + pending(Run(d, s, bytes).value.0)
  {
    if bytes != [] {
      RunKeepsSize(d, d.step(s, bytes[0]).value.0, bytes[1..], slack, pending);
    }
  }

  lemma OneMore(k: nat, n: nat)
    ensures k * (n + 1) == k * n + k
  {
  }

  // ---------------------------------------------------------------- the loops

  function Bytes(delivery: Delivery): seq<Byte> {
    if delivery.Chunk? then delivery.bytes else []
  }

  /** The first `n` chunks together. */
  ghost function Prefix(deliveries: seq<Delivery>, n: nat): seq<Byte>
    requires n <= |deliveries|
  {
    if n == 0 then [] else Prefix(deliveries, n - 1) + Bytes(deliveries[n - 1])
  }

  ghost function Body(deliveries: seq<Delivery>): seq<Byte> {
    Prefix(deliveries, |deliveries|)
  }

  predicate Intact(deliveries: seq<Delivery>) {
    forall i :: 0 <= i < |deliveries| ==> deliveries[i].Chunk?
  }

  /** Writes one call's output behind the bytes already in the buffer. */
  method Fill(buffer: array<Byte>, n: nat, written: seq<Byte>)
    requires n + |written| <= buffer.Length
    modifies buffer
    ensures buffer[..n + |written|] == old(buffer[..n]) + written
  {
    for i := 0 to |written|
      invariant buffer[..n + i] == old(buffer[..n]) + written[..i]
    {
      buffer[n + i] := written[i];
    }
  }

  /** What one call adds to the decoding of a chunk. */
  lemma DecodedByCall<S>(d: Decoder<S>, s0: S, chunk: seq<Byte>, read: nat, s: S, decoded: seq<Byte>, space: nat, c: Call<S>)
    requires read <= |chunk| && Run(d, s0, chunk[..read]) == Some((s, decoded))
    requires GoodDecode(d, s, chunk[read..], space, c)
    ensures if c.hadErrors then Run(d, s0, chunk).None?
            else Run(d, s0, chunk[..read + c.read]) == Some((c.next, decoded + c.written))
    ensures !c.hadErrors && !c.full ==> Run(d, s0, chunk) == Some((c.next, decoded + c.written))
  {
    assert chunk[..read + c.read] == chunk[..read] + chunk[read..][..c.read];
    RunConcat(d, s0, chunk[..read], chunk[read..][..c.read]);
    if c.hadErrors {
      assert chunk == chunk[..read + c.read] + chunk[read + c.read..];
      RunConcat(d, s0, chunk[..read + c.read], chunk[read + c.read..]);
    } else if !c.full {
      assert chunk[..read + c.read] == chunk;
    }
  }

  /** The inner loop: pushes one chunk through the decoder. */
  method DecodeChunk<S(!new)>(lib: Library<S>, ghost d: Decoder<S>, s0: S, chunk: seq<Byte>,
                              buffer: array<Byte>, n0: nat, output0: seq<Byte>)
    returns (ok: bool, s: S, n: nat, output: seq<Byte>)
    requires Implements(lib, d) && buffer.Length == BUFFER && n0 <= BUFFER
    modifies buffer
    ensures n <= BUFFER
    ensures ok <==> Run(d, s0, chunk).Some?
    ensures ok ==> Run(d, s0, chunk).value.0 == s
    ensures ok ==> output + buffer[..n] == output0 + old(buffer[..n0]) + Run(d, s0, chunk).value.1
    ensures Thrifty(lib, d) && FitsWell(d, s0, chunk, BUFFER - n0) ==> output == output0
  {
    s, n, output := s0, n0, output0;
    var read := 0;
    ghost var before, decoded := output0 + buffer[..n0], [];
    while true
      invariant 0 <= read <= |chunk| && 0 <= n <= BUFFER
      invariant Run(d, s0, chunk[..read]) == Some((s, decoded))
      invariant output + buffer[..n] == before + decoded
      invariant Thrifty(lib, d) && FitsWell(d, s0, chunk, BUFFER - n0) ==>
                  read == 0 && s == s0 && n == n0 && output == output0
      decreases |chunk| - read, n
    {
      assert read == 0 ==> chunk[read..] == chunk;
      var c := lib.decode(s, chunk[read..], BUFFER - n);
      assert GoodDecode(d, s, chunk[read..], BUFFER - n, c);
      DecodedByCall(d, s0, chunk, read, s, decoded, BUFFER - n, c);
      if c.hadErrors {
        return false, s, n, output;
      }
      ghost var held := buffer[..n];
      Fill(buffer, n, c.written);
      ConcatAssociative(output, held, c.written);
      ConcatAssociative(before, decoded, c.written);
      decoded := decoded + c.written;
      read, n, s := read + c.read, n + |c.written|, c.next;
      if !c.full {
        return true, s, n, output;
      }
      output := output + buffer[..n];
      n := 0;
    }
  }

  /** The last loop: flushes what the decoder held back. */
  method Finish<S(!new)>(lib: Library<S>, ghost d: Decoder<S>, s0: S, buffer: array<Byte>, n0: nat, output0: seq<Byte>)
    returns (r: Result<seq<Byte>, FetchError>)
    requires Implements(lib, d) && buffer.Length == BUFFER && n0 <= BUFFER
    modifies buffer
    ensures r == match d.tail(s0)
                 case None => Failure(MudFileInvalid)
                 case Some(rest) => Success(output0 + old(buffer[..n0]) + rest)
  {
    var s, n, output := s0, n0, output0;
    ghost var before := output0 + buffer[..n0];
    while true
      invariant 0 <= n <= BUFFER
      invariant d.tail(s).Some? <==> d.tail(s0).Some?
      invariant d.tail(s0).Some? ==> output + buffer[..n] + d.tail(s).value == before + d.tail(s0).value
      decreases if d.tail(s).Some? then |d.tail(s).value| else 0, n
    {
      var c := lib.flush(s, BUFFER - n);
      assert GoodFlush(d, s, BUFFER - n, c);
      if c.hadErrors {
        return Failure(MudFileInvalid);
      }
      ghost var held, rest := buffer[..n], if c.full then d.tail(c.next).value else [];
      Fill(buffer, n, c.written);
      assert output + (held + c.written) + rest == output + held + (c.written + rest);
      n := n + |c.written|;
      output := output + buffer[..n];
      assert output + rest == before + d.tail(s0).value;
      n, s := 0, c.next;
      if !c.full {
        assert output + [] == output;
        return Success(output);
      }
    }
  }

  // ---------------------------------------------------------------- the whole fetch

  ghost function DecodedLength<S>(d: Decoder<S>, bytes: seq<Byte>): nat {
    match Run(d, d.init, bytes)
    case None => 0
    case Some((_, out)) => |out|
  }

  /** Every chunk is below the limit, and, added to what is decoded before it, below the limit plus `extra`. */
  ghost predicate WithinLimit<S>(d: Decoder<S>, deliveries: seq<Delivery>, extra: nat) {
    forall i :: 0 <= i < |deliveries| ==> ChunkWithinLimit(d, deliveries, i, extra)
  }

  ghost predicate ChunkWithinLimit<S>(d: Decoder<S>, deliveries: seq<Delivery>, i: nat, extra: nat)
    requires i < |deliveries|
  {
    var chunk := Bytes(deliveries[i]);
    |chunk| < MAX_LEN && DecodedLength(d, Prefix(deliveries, i)) + |chunk| < MAX_LEN + extra
  }

  lemma BodyOfOne(chunk: seq<Byte>)
    ensures Body([Chunk(chunk)]) == chunk
  {
    assert Prefix([Chunk(chunk)], 1) == Prefix([Chunk(chunk)], 0) + chunk;
  }

  /** What does not decode never decodes with more chunks behind it. */
  lemma {:induction false} StaysMalformed<S>(d: Decoder<S>, deliveries: seq<Delivery>, i: nat, j: nat)
    requires i <= j <= |deliveries| && Run(d, d.init, Prefix(deliveries, i)).None?
    ensures Run(d, d.init, Prefix(deliveries, j)).None?
  {
    if i < j {
      StaysMalformed(d, deliveries, i, j - 1);
      RunConcat(d, d.init, Prefix(deliveries, j - 1), Bytes(deliveries[j - 1]));
    }
  }

  lemma {:induction false} PrefixGrows(deliveries: seq<Delivery>, i: nat, j: nat)
    requires i <= j <= |deliveries|
    ensures |Prefix(deliveries, i)| <= |Prefix(deliveries, j)|
  {
    if i < j {
      PrefixGrows(deliveries, i, j - 1);
    }
  }

  /** One more chunk: its decoding follows, or nothing decodes any more. */
  lemma OneMoreChunk<S>(d: Decoder<S>, deliveries: seq<Delivery>, i: nat, s: S, out: seq<Byte>)
    requires i < |deliveries| && deliveries[i].Chunk? && Run(d, d.init, Prefix(deliveries, i)) == Some((s, out))
    ensures Run(d, d.init, Prefix(deliveries, i + 1)) == Prefixed(out, Run(d, s, deliveries[i].bytes))
    ensures Run(d, s, deliveries[i].bytes).None? ==> OneShot(d, Body(deliveries)).None?
  {
    RunConcat(d, d.init, Prefix(deliveries, i), deliveries[i].bytes);
    if Run(d, s, deliveries[i].bytes).None? {
      StaysMalformed(d, deliveries, i + 1, |deliveries|);
    }
  }

  /**
   A chunk that is not refused: it stays below the limit together with what is decoded before it, or
   all of that still waits in the buffer, where the check does not see it.
   */
  ghost predicate ChunkAccepted<S(!new)>(lib: Library<S>, d: Decoder<S>, deliveries: seq<Delivery>, i: nat)
    requires i < |deliveries|
  {
    || ChunkWithinLimit(d, deliveries, i, 0)
    || (Thrifty(lib, d) && |Bytes(deliveries[i])| < MAX_LEN && DecodedLength(d, Prefix(deliveries, i)) + MARGIN <= BUFFER)
  }

  ghost predicate AllAccepted<S(!new)>(lib: Library<S>, d: Decoder<S>, deliveries: seq<Delivery>) {
    forall i :: 0 <= i < |deliveries| ==> ChunkAccepted(lib, d, deliveries, i)
  }

  /** After `i` chunks, decoded into what is pushed and what is held in the buffer. */
  ghost predicate Reading<S(!new)>(lib: Library<S>, d: Decoder<S>, deliveries: seq<Delivery>, i: nat,
                                   s: S, output: seq<Byte>, held: seq<Byte>) {
    && i <= |deliveries| && |held| <= BUFFER
    && Run(d, d.init, Prefix(deliveries, i)) == Some((s, output + held))
    && (Thrifty(lib, d) && |output + held| + MARGIN <= BUFFER ==> output == [])
  }

  /** One more chunk read, as `DecodeChunk` leaves it. */
  lemma ReadOneMore<S(!new)>(lib: Library<S>, d: Decoder<S>, deliveries: seq<Delivery>, i: nat, s: S, output: seq<Byte>,
                             held: seq<Byte>, s': S, output': seq<Byte>, held': seq<Byte>)
    requires Reading(lib, d, deliveries, i, s, output, held) && i < |deliveries| && deliveries[i].Chunk?
    requires |held'| <= BUFFER
    requires var run := Run(d, s, deliveries[i].bytes);
             run.Some? && run.value.0 == s' && output' + held' == output + held + run.value.1
    requires Thrifty(lib, d) && FitsWell(d, s, deliveries[i].bytes, BUFFER - |held|) ==> output' == output
    ensures Reading(lib, d, deliveries, i + 1, s', output', held')
  {
    OneMoreChunk(d, deliveries, i, s, output + held);
  }

  /** What the length check says about a chunk. */
  lemma CheckedChunk<S(!new)>(lib: Library<S>, d: Decoder<S>, deliveries: seq<Delivery>, i: nat, s: S,
                              output: seq<Byte>, held: seq<Byte>)
    requires Reading(lib, d, deliveries, i, s, output, held) && i < |deliveries|
    ensures if |output| + |Bytes(deliveries[i])| < MAX_LEN then ChunkWithinLimit(d, deliveries, i, BUFFER)
            else !ChunkAccepted(lib, d, deliveries, i)
  {
    assert DecodedLength(d, Prefix(deliveries, i)) == |output| + |held|;
  }

  /** The body of the outer loop: the length check, and then the chunk. */
  method ReadChunk<S(!new)>(lib: Library<S>, ghost d: Decoder<S>, ghost deliveries: seq<Delivery>, ghost i: nat,
                            chunk: seq<Byte>, s0: S, buffer: array<Byte>, n0: nat, output0: seq<Byte>)
    returns (ok: bool, s: S, n: nat, output: seq<Byte>)
    requires Implements(lib, d) && buffer.Length == BUFFER && n0 <= BUFFER
    requires i < |deliveries| && deliveries[i] == Chunk(chunk)
    requires Reading(lib, d, deliveries, i, s0, output0, buffer[..n0])
    modifies buffer
    ensures n <= BUFFER
    ensures ok ==> Reading(lib, d, deliveries, i + 1, s, output, buffer[..n]) && ChunkWithinLimit(d, deliveries, i, BUFFER)
    ensures !ok ==> OneShot(d, Body(deliveries)).None? || !ChunkAccepted(lib, d, deliveries, i)
  {
    ghost var held := buffer[..n0];
    CheckedChunk(lib, d, deliveries, i, s0, output0, held);
    s, n, output := s0, n0, output0;
    if |output| + |chunk| >= MAX_LEN {
      return false, s, n, output;
    }
    OneMoreChunk(d, deliveries, i, s0, output0 + held);
    ok, s, n, output := DecodeChunk(lib, d, s, chunk, buffer, n, output);
    if ok {
      ReadOneMore(lib, d, deliveries, i, s0, output0, held, s, output, buffer[..n]);
    }
  }

  /** The loops of `fetch_mud` together. */
  method FetchChunks<S(!new)>(lib: Library<S>, ghost d: Decoder<S>, init: S, deliveries: seq<Delivery>)
    returns (r: Result<seq<Byte>, FetchError>)
    requires Implements(lib, d) && d.init == init
    ensures r.Success? ==> Intact(deliveries) && OneShot(d, Body(deliveries)) == Some(r.value)
    ensures r.Success? ==> WithinLimit(d, deliveries, BUFFER)
    ensures r.Failure? && r.error.NetworkError? ==> !Intact(deliveries)
    ensures deliveries != [] && deliveries[0].Broken? ==> r == Failure(NetworkError)
    ensures Intact(deliveries) && OneShot(d, Body(deliveries)).Some? && AllAccepted(lib, d, deliveries) ==> r.Success?
  {
    var buffer := new Byte[BUFFER];
    var s, n: nat, output: seq<Byte> := init, 0, [];
    assert output + buffer[..n] == [];
    for i := 0 to |deliveries|
      invariant n <= BUFFER && fresh(buffer)
      invariant forall j :: 0 <= j < i ==> deliveries[j].Chunk?
      invariant Reading(lib, d, deliveries, i, s, output, buffer[..n])
      invariant forall j :: 0 <= j < i ==> ChunkWithinLimit(d, deliveries, j, BUFFER)
    {
      if deliveries[i].Broken? {
        return Failure(NetworkError);
      }
      var ok;
      ok, s, n, output := ReadChunk(lib, d, deliveries, i, deliveries[i].bytes, s, buffer, n, output);
      if !ok {
        return Failure(MudFileInvalid);
      }
    }
    r := Finish(lib, d, s, buffer, n, output);
  }

  /**
   `fetch_mud` from the first chunk on. Success means the body arrived whole and decodes, and gives
   its one-shot decoding; the length check bounds it by `k` times the limit plus one buffer, and the
   body, where decoding never shrinks it, by the limit plus one buffer. Acceptance is decided chunk by
   chunk, up to the bytes that wait in the buffer: chunks within the limit, and chunks after so little
   that it still waits in the buffer, are never refused, and a fetch that succeeds had all of them
   within the limit plus one buffer. For a single chunk acceptance is exact.
   */
  method FetchMud<S(!new)>(lib: Library<S>, ghost d: Decoder<S>, init: S, deliveries: seq<Delivery>,
                           ghost k: nat, ghost slack: nat, ghost pending: S -> nat)
    returns (r: Result<seq<Byte>, FetchError>)
    requires Implements(lib, d) && d.init == init
    ensures r.Success? ==> Intact(deliveries) && OneShot(d, Body(deliveries)) == Some(r.value)
    ensures r.Success? ==> WithinLimit(d, deliveries, BUFFER)
    ensures r.Success? && Expands(d, k, slack, pending) ==> |r.value| < k * MAX_LEN + BUFFER + slack
    ensures r.Success? && NeverShrinks(d, slack, pending) ==> |Body(deliveries)| < MAX_LEN + BUFFER + slack
    ensures r.Failure? && r.error.NetworkError? ==> !Intact(deliveries)
    ensures deliveries != [] && deliveries[0].Broken? ==> r == Failure(NetworkError)
    ensures Intact(deliveries) && OneShot(d, Body(deliveries)).Some? && AllAccepted(lib, d, deliveries) ==> r.Success?
    ensures Intact(deliveries) && OneShot(d, Body(deliveries)).Some? && WithinLimit(d, deliveries, 0) ==> r.Success?
    ensures (Expands(d, k, slack, pending) && Intact(deliveries) && OneShot(d, Body(deliveries)).Some?
             && k * |Body(deliveries)| + slack < MAX_LEN) ==> r.Success? && |r.value| < MAX_LEN
    ensures |deliveries| == 1 && Intact(deliveries) ==>
              (r.Success? <==> OneShot(d, Body(deliveries)).Some? && |Body(deliveries)| < MAX_LEN)
  {
    r := FetchChunks(lib, d, init, deliveries);
    assert WithinLimit(d, deliveries, 0) ==> AllAccepted(lib, d, deliveries);
    ghost var decodes := OneShot(d, Body(deliveries)).Some?;
    if Expands(d, k, slack, pending) && decodes && k * |Body(deliveries)| + slack < MAX_LEN {
      SmallBodyWithinLimit(d, deliveries, k, slack, pending);
    }
    if r.Success? && Expands(d, k, slack, pending) {
      AcceptedBound(d, deliveries, k, slack, pending);
    }
    if r.Success? && NeverShrinks(d, slack, pending) {
      AcceptedBodyBound(d, deliveries, slack, pending);
    }
    if |deliveries| == 1 {
      SingleWithinLimit(d, deliveries, 0);
      SingleWithinLimit(d, deliveries, BUFFER);
    }
  }

  /** The last chunk went through the check together with at least as many bytes as came before it, but for a buffer. */
  lemma AcceptedBodyBound<S(!new)>(d: Decoder<S>, deliveries: seq<Delivery>, slack: nat, pending: S -> nat)
    requires NeverShrinks(d, slack, pending) && WithinLimit(d, deliveries, BUFFER)
    requires OneShot(d, Body(deliveries)).Some?
    ensures |Body(deliveries)| < MAX_LEN + BUFFER + slack
  {
    if deliveries != [] {
      var i := |deliveries| - 1;
      var soFar, chunk := Prefix(deliveries, i), Bytes(deliveries[i]);
      assert ChunkWithinLimit(d, deliveries, i, BUFFER);
      RunConcat(d, d.init, soFar, chunk);
      RunKeepsSize(d, d.init, soFar, slack, pending);
    }
  }

  lemma SingleWithinLimit<S>(d: Decoder<S>, deliveries: seq<Delivery>, extra: nat)
    requires |deliveries| == 1
    ensures WithinLimit(d, deliveries, extra) <==> |Body(deliveries)| < MAX_LEN
  {
    assert Prefix(deliveries, 1) == Prefix(deliveries, 0) + Bytes(deliveries[0]);
    assert ChunkWithinLimit(d, deliveries, 0, extra) <==> |Body(deliveries)| < MAX_LEN;
  }

  /** The last chunk decodes to at most `k` times its size, and everything before it went through the check. */
  lemma AcceptedBound<S(!new)>(d: Decoder<S>, deliveries: seq<Delivery>, k: nat, slack: nat, pending: S -> nat)
    requires Expands(d, k, slack, pending) && WithinLimit(d, deliveries, BUFFER)
    requires OneShot(d, Body(deliveries)).Some?
    ensures |OneShot(d, Body(deliveries)).value| < k * MAX_LEN + BUFFER + slack
  {
    if deliveries == [] {
      RunGrowth(d, d.init, [], k, slack, pending);
    } else {
      var i := |deliveries| - 1;
      var soFar, chunk := Prefix(deliveries, i), Bytes(deliveries[i]);
      assert ChunkWithinLimit(d, deliveries, i, BUFFER);
      RunConcat(d, d.init, soFar, chunk);
      RunGrowth(d, Run(d, d.init, soFar).value.0, chunk, k, slack, pending);
      LastChunkGrowth(k, DecodedLength(d, soFar), |chunk|);
    }
  }

  lemma LastChunkGrowth(k: nat, length: nat, chunk: nat)
    requires k >= 1 && chunk < MAX_LEN && length + chunk < MAX_LEN + BUFFER
    ensures length + k * chunk < k * MAX_LEN + BUFFER
  {
    Scales(k - 1, chunk, MAX_LEN);
    assert k * chunk == (k - 1) * chunk + chunk && k * MAX_LEN == (k - 1) * MAX_LEN + MAX_LEN;
  }

  lemma Scales(k: nat, a: nat, b: nat)
    requires a <= b
    ensures k * a <= k * b
  {
  }

  // ---------------------------------------------------------------- what the limit limits

  /**
   A body whose decoding cannot reach the limit is accepted, and its result is below the limit:
   this much of the documented maximum does hold, for every chunking and every decoder.
   */
  lemma SmallBodyWithinLimit<S(!new)>(d: Decoder<S>, deliveries: seq<Delivery>, k: nat, slack: nat, pending: S -> nat)
    requires Expands(d, k, slack, pending) && OneShot(d, Body(deliveries)).Some?
    requires k * |Body(deliveries)| + pending(d.init) < MAX_LEN
    ensures WithinLimit(d, deliveries, 0) && |OneShot(d, Body(deliveries)).value| < MAX_LEN
  {
    forall i | 0 <= i < |deliveries| ensures ChunkWithinLimit(d, deliveries, i, 0) {
      PrefixGrowth(d, deliveries, i, k, slack, pending);
      SmallPrefix(deliveries, i, k, DecodedLength(d, Prefix(deliveries, i)), pending(d.init));
    }
    RunGrowth(d, d.init, Body(deliveries), k, slack, pending);
  }

  /** A prefix of a body that decodes decodes, and grows by at most `k` for each byte. */
  lemma PrefixGrowth<S(!new)>(d: Decoder<S>, deliveries: seq<Delivery>, i: nat, k: nat, slack: nat, pending: S -> nat)
    requires Expands(d, k, slack, pending) && Run(d, d.init, Body(deliveries)).Some? && i <= |deliveries|
    ensures DecodedLength(d, Prefix(deliveries, i)) <= k * |Prefix(deliveries, i)| + pending(d.init)
  {
    if Run(d, d.init, Prefix(deliveries, i)).Some? {
      RunGrowth(d, d.init, Prefix(deliveries, i), k, slack, pending);
    } else {
      StaysMalformed(d, deliveries, i, |deliveries|);
    }
  }

  lemma ChunkInside(deliveries: seq<Delivery>, i: nat)
    requires i < |deliveries|
    ensures |Prefix(deliveries, i)| + |Bytes(deliveries[i])| <= |Body(deliveries)|
  {
    assert Prefix(deliveries, i + 1) == Prefix(deliveries, i) + Bytes(deliveries[i]);
    PrefixGrows(deliveries, i + 1, |deliveries|);
  }

  lemma SmallPrefix(deliveries: seq<Delivery>, i: nat, k: nat, decoded: nat, held: nat)
    requires i < |deliveries| && k >= 1 && decoded <= k * |Prefix(deliveries, i)| + held
    requires k * |Body(deliveries)| + held < MAX_LEN
    ensures decoded + |Bytes(deliveries[i])| < MAX_LEN
  {
    ChunkInside(deliveries, i);
    SmallSum(k, |Prefix(deliveries, i)|, |Bytes(deliveries[i])|, |Body(deliveries)|, decoded, held);
  }

  lemma SmallSum(k: nat, soFar: nat, chunk: nat, whole: nat, decoded: nat, held: nat)
    requires k >= 1 && soFar + chunk <= whole && decoded <= k * soFar + held && k * whole + held < MAX_LEN
    ensures decoded + chunk < MAX_LEN
  {
    Scales(k, soFar + chunk, whole);
    Scales(chunk, 1, k);
    assert k * (soFar + chunk) == k * soFar + chunk * k;
  }

  /** The code point of a byte in windows-1252, as the WHATWG Encoding Standard lists it. */
  function Windows1252(b: Byte): (c: nat)
    ensures c < 0x1_0000
  {
    if b < 0x80 || b >= 0xA0 then b
    else [0x20AC, 0x81, 0x201A, 0x192, 0x201E, 0x2026, 0x2020, 0x2021, 0x2C6, 0x2030, 0x160, 0x2039, 0x152, 0x8D, 0x17D,
          0x8F, 0x90, 0x2018, 0x2019, 0x201C, 0x201D, 0x2022, 0x2013, 0x2014, 0x2DC, 0x2122, 0x161, 0x203A, 0x153, 0x9D,
          0x17E, 0x178][b - 0x80]
  }

  /** UTF-8 for code points of up to 16 bits. */
  function Utf8(c: nat): (bytes: seq<Byte>)
    requires c < 0x1_0000
    ensures 1 <= |bytes| <= 3
  {
    if c < 0x80 then [c]
    else if c < 0x800 then [0xC0 + c / 64, 0x80 + c % 64]
    else [0xE0 + c / 4096, 0x80 + c / 64 % 64, 0x80 + c % 64]
  }

  function Windows1252Decoder(): Decoder<()> {
    Decoder((), (s: (), b: Byte) => Some((s, Utf8(Windows1252(b)))), (s: ()) => Some([]))
  }

  function Transcoded(body: seq<Byte>): seq<Byte> {
    if body == [] then [] else Utf8(Windows1252(body[0])) + Transcoded(body[1..])
  }

  /** As many characters as fit into the space. */
  function Greedy(src: seq<Byte>, space: nat): (nat, seq<Byte>) {
    if src == [] || |Utf8(Windows1252(src[0]))| > space then (0, [])
    else
      var first := Utf8(Windows1252(src[0]));
      var (read, written) := Greedy(src[1..], space - |first|);
      (read + 1, first + written)
  }

  function Windows1252Library(): Library<()> {
    Library((s: (), src: seq<Byte>, space: nat) =>
              var (read, written) := Greedy(src, space); Call(read < |src|, read, written, s, false),
            (s: (), space: nat) => Call(false, 0, [], s, false))
  }

  lemma {:induction false} RunTranscodes(body: seq<Byte>)
    ensures Run(Windows1252Decoder(), (), body) == Some(((), Transcoded(body)))
    ensures |body| <= |Transcoded(body)| <= 3 * |body|
  {
    if body != [] {
      RunTranscodes(body[1..]);
    }
  }

  lemma {:induction false} GreedyTranscodes(src: seq<Byte>, space: nat)
    ensures var (read, written) := Greedy(src, space);
            && read <= |src| && written == Transcoded(src[..read]) && |written| <= space
            && (src != [] && space >= 3 ==> read > 0)
  {
    if src != [] && |Utf8(Windows1252(src[0]))| <= space {
      var (read, written) := Greedy(src[1..], space - |Utf8(Windows1252(src[0]))|);
      GreedyTranscodes(src[1..], space - |Utf8(Windows1252(src[0]))|);
      assert src[..read + 1][1..] == src[1..][..read];
    }
  }

  lemma LibraryDecodes()
    ensures Implements(Windows1252Library(), Windows1252Decoder())
  {
    var lib, d := Windows1252Library(), Windows1252Decoder();
    forall s, src: seq<Byte>, space: nat ensures GoodDecode(d, s, src, space, lib.decode(s, src, space)) {
      GreedyTranscodes(src, space);
      RunTranscodes(src[..Greedy(src, space).0]);
      assert s == ();
    }
  }

  /** What fits is read to the end. */
  lemma {:induction false} GreedyTakesAll(src: seq<Byte>, space: nat)
    requires |Transcoded(src)| <= space
    ensures Greedy(src, space).0 == |src|
  {
    if src != [] {
      GreedyTakesAll(src[1..], space - |Utf8(Windows1252(src[0]))|);
    }
  }

  lemma LibraryIsThrifty()
    ensures Thrifty(Windows1252Library(), Windows1252Decoder())
  {
    var lib, d := Windows1252Library(), Windows1252Decoder();
    forall s, src: seq<Byte>, space: nat | FitsWell(d, s, src, space) ensures !lib.decode(s, src, space).full {
      assert s == ();
      RunTranscodes(src);
      GreedyTakesAll(src, space);
    }
  }

  /** No byte order mark starts like this body, so the decoder that the label names is the one that is used. */
  predicate Unmarked(body: seq<Byte>) {
    body != [] ==> body[0] != 0xEF && body[0] != 0xFE && body[0] != 0xFF
  }

  /** A windows-1252 body in one chunk is accepted if and only if it, not its decoding, is below the limit. */
  method FetchWindows1252(body: seq<Byte>) returns (r: Result<seq<Byte>, FetchError>)
    requires Unmarked(body)
    ensures r.Success? <==> |body| < MAX_LEN
    ensures r.Success? ==> r.value == Transcoded(body)
  {
    LibraryDecodes();
    RunTranscodes(body);
    BodyOfOne(body);
    assert OneShot(Windows1252Decoder(), body) == Some(Transcoded(body) + []);
    r := FetchMud(Windows1252Library(), Windows1252Decoder(), (), [Chunk(body)], 3, 0, (s: ()) => 0);
  }

  lemma BodyOfTwo(first: seq<Byte>, second: seq<Byte>)
    ensures Body([Chunk(first), Chunk(second)]) == first + second
    ensures Prefix([Chunk(first), Chunk(second)], 1) == first
  {
    var deliveries := [Chunk(first), Chunk(second)];
    assert Prefix(deliveries, 1) == Prefix(deliveries, 0) + first;
    assert Prefix(deliveries, 2) == Prefix(deliveries, 1) + second;
  }

  /** A first chunk that waits in the buffer leaves the whole limit to the second. */
  lemma SecondChunkFree(first: seq<Byte>, second: seq<Byte>)
    requires |Transcoded(first)| + MARGIN <= BUFFER
    ensures var lib, d, deliveries := Windows1252Library(), Windows1252Decoder(), [Chunk(first), Chunk(second)];
            && (|second| < MAX_LEN ==> AllAccepted(lib, d, deliveries))
            && (WithinLimit(d, deliveries, BUFFER) ==> |second| < MAX_LEN)
  {
    var lib, d, deliveries := Windows1252Library(), Windows1252Decoder(), [Chunk(first), Chunk(second)];
    LibraryIsThrifty();
    RunTranscodes(first);
    BodyOfTwo(first, second);
    assert ChunkWithinLimit(d, deliveries, 0, 0);
    assert |second| < MAX_LEN ==> ChunkAccepted(lib, d, deliveries, 1);
    assert ChunkWithinLimit(d, deliveries, 1, BUFFER) ==> |second| < MAX_LEN;
  }

  /** In two chunks, the first of which waits in the buffer, a body is accepted if and only if the second is below the limit. */
  method FetchInTwo(first: seq<Byte>, second: seq<Byte>) returns (r: Result<seq<Byte>, FetchError>)
    requires Unmarked(first + second) && |Transcoded(first)| + MARGIN <= BUFFER
    ensures r.Success? <==> |second| < MAX_LEN
    ensures r.Success? ==> r.value == Transcoded(first + second)
  {
    LibraryDecodes();
    RunTranscodes(first + second);
    BodyOfTwo(first, second);
    SecondChunkFree(first, second);
    assert OneShot(Windows1252Decoder(), first + second) == Some(Transcoded(first + second) + []);
    r := FetchMud(Windows1252Library(), Windows1252Decoder(), (), [Chunk(first), Chunk(second)], 3, 0, (s: ()) => 0);
  }

  /** The letter "a", so many times. */
  function Letters(n: nat): seq<Byte> {
    seq(n, i => 0x61)
  }

  lemma {:induction false} LettersStay(n: nat)
    ensures Transcoded(Letters(n)) == Letters(n)
  {
    if n > 0 {
      LettersStay(n - 1);
      assert Letters(n)[1..] == Letters(n - 1) && Letters(n) == [0x61] + Letters(n - 1);
    }
  }

  /** A body above the maximum response size is accepted, by all that fits into the buffer. */
  method FetchBeyondLimit() returns (body: seq<Byte>, r: Result<seq<Byte>, FetchError>)
    ensures |body| == MAX_LEN - 1 + BUFFER - MARGIN
    ensures r == Success(body)
  {
    var first, second := Letters(BUFFER - MARGIN), Letters(MAX_LEN - 1);
    body := Letters(MAX_LEN - 1 + BUFFER - MARGIN);
    assert first + second == body;
    LettersStay(BUFFER - MARGIN);
    LettersStay(MAX_LEN - 1 + BUFFER - MARGIN);
    r := FetchInTwo(first, second);
  }

  /** Euro signs in windows-1252: one byte each, and three in UTF-8. */
  function Euros(n: nat): seq<Byte> {
    seq(n, i => 0x80)
  }

  lemma {:induction false} EurosTriple(n: nat)
    ensures |Transcoded(Euros(n))| == 3 * n
  {
    if n > 0 {
      EurosTriple(n - 1);
      assert Euros(n)[1..] == Euros(n - 1);
    }
  }

  /** A body below the limit, whose decoded result is almost three times the limit. */
  method FetchEuros() returns (r: Result<seq<Byte>, FetchError>)
    ensures r.Success? && |r.value| == 3 * (MAX_LEN - 1)
  {
    EurosTriple(MAX_LEN - 1);
    r := FetchWindows1252(Euros(MAX_LEN - 1));
  }

  /** What `FetchWindows1252` accepts. */
  predicate AcceptedInOne(body: seq<Byte>) {
    Unmarked(body) && |body| < MAX_LEN
  }

  /**
   The decoded results of accepted one-chunk bodies of `n` bytes all stay below the limit if and only
   if three times `n` does, or no such body is accepted.
   */
  lemma ResultLimitHoldsIff(n: nat)
    ensures 3 * n < MAX_LEN || n >= MAX_LEN <==>
            forall body: seq<Byte> :: |body| == n && AcceptedInOne(body) ==> |Transcoded(body)| < MAX_LEN
  {
    EurosTriple(n);
    assert |Euros(n)| == n && Unmarked(Euros(n));
    forall body: seq<Byte> | |body| == n ensures |Transcoded(body)| <= 3 * n {
      RunTranscodes(body);
    }
  }
}
