/** Stripping the HTTP response header from a stream of reads. */
module HttpStream {
  import opened Collections
  import opened Sse
  import opened Utf8
  import opened Uuids

  const CR: byte := 13
  const LF: byte := 10
  const SEPARATOR: seq<byte> := [CR, LF, CR, LF]

  predicate SeparatorAt(data: seq<byte>, i: nat) {
    i + 4 <= |data| && data[i..i + 4] == SEPARATOR
  }

  /** The first window of four bytes that is CRLFCRLF, searching from `i`. */
  function FindFrom(data: seq<byte>, i: nat): Option<nat>
    decreases |data| - i
  {
    if i + 4 > |data| then None
    else if SeparatorAt(data, i) then Some(i)
    else FindFrom(data, i + 1)
  }

  function FindHeaderEnd(data: seq<byte>): Option<nat> {
    FindFrom(data, 0)
  }

  /** The body part of `split_response`. */
  function SplitBody(raw: seq<byte>): seq<byte> {
    var end := FindHeaderEnd(raw);
    if end.Some? && end.value + 4 <= |raw| then raw[end.value + 4..] else raw
  }

  /** What follows the first CRLFCRLF; nothing when there is none. */
  function Body(raw: seq<byte>): seq<byte> {
    if FindHeaderEnd(raw).Some? then SplitBody(raw) else []
  }

  lemma {:induction false} FindFromIsFirst(data: seq<byte>, i: nat)
    ensures FindFrom(data, i).Some? ==>
      && SeparatorAt(data, FindFrom(data, i).value)
      && forall j :: i <= j < FindFrom(data, i).value ==> !SeparatorAt(data, j)
    ensures FindFrom(data, i).None? ==> forall j :: i <= j ==> !SeparatorAt(data, j)
    decreases |data| - i
  {
    if i + 4 <= |data| && !SeparatorAt(data, i) {
      FindFromIsFirst(data, i + 1);
    }
  }

  /** The search finds the separator, CR LF CR LF, at `k` exactly when it is there and nowhere before. */
  lemma FoundExactly(data: seq<byte>, k: nat)
    ensures FindHeaderEnd(data) == Some(k) <==> SeparatorAt(data, k) && forall j :: 0 <= j < k ==> !SeparatorAt(data, j)
    ensures SeparatorAt(data, k) <==>
      k + 4 <= |data| && data[k] == 13 && data[k + 1] == 10 && data[k + 2] == 13 && data[k + 3] == 10
  {
    FindFromIsFirst(data, 0);
    if k + 4 <= |data| {
      assert data[k..k + 4] == [data[k], data[k + 1], data[k + 2], data[k + 3]];
    }
  }

  /** More data does not move a separator that has been found. */
  lemma FoundStays(data: seq<byte>, more: seq<byte>)
    requires FindHeaderEnd(data).Some?
    ensures FindHeaderEnd(data + more) == FindHeaderEnd(data)
    ensures Body(data + more) == Body(data) + more
  {
    var k := FindHeaderEnd(data).value;
    FoundExactly(data, k);
    forall j | 0 <= j <= k
      ensures SeparatorAt(data + more, j) <==> SeparatorAt(data, j)
    {
      assert (data + more)[j..j + 4] == data[j..j + 4];
    }
    FoundExactly(data + more, k);
    assert (data + more)[k + 4..] == data[k + 4..] + more;
  }

  predicate NoneEmpty(pieces: seq<seq<byte>>) {
    forall i :: 0 <= i < |pieces| ==> |pieces[i]| > 0
  }

  /** The reads up to the end of the stream, which is an empty read. */
  function UntilEnd(slices: seq<seq<byte>>): (r: seq<seq<byte>>)
    ensures r <= slices && NoneEmpty(r)
    ensures |r| < |slices| ==> slices[|r|] == []
  {
    if slices == [] || slices[0] == [] then [] else [slices[0]] + UntilEnd(slices[1..])
  }

  lemma EndsAt(slices: seq<seq<byte>>, i: nat)
    requires i <= |slices| && forall k :: 0 <= k < i ==> slices[k] != []
    requires i < |slices| ==> slices[i] == []
    ensures UntilEnd(slices) == slices[..i]
  {
    var r := UntilEnd(slices);
    assert r == slices[..|r|];
    assert forall k :: 0 <= k < |r| ==> r[k] == slices[k] && |r[k]| > 0;
  }

  /** The arguments of the callback: what follows the separator in the read that completes it,
      if anything does, and then every read as it is. */
  function Chunks(slices: seq<seq<byte>>): seq<seq<byte>> {
    if slices == [] then []
    else
      var before, last := Flatten(slices[..|slices| - 1]), slices[|slices| - 1];
      Chunks(slices[..|slices| - 1]) +
      if FindHeaderEnd(before).Some? then [last]
      else if Body(before + last) != [] then [Body(before + last)]
      else []
  }

  lemma ChunksNext(slices: seq<seq<byte>>, i: nat)
    requires i < |slices|
    ensures var before, buf := Flatten(slices[..i]), slices[i];
      && Flatten(slices[..i + 1]) == before + buf
      && Chunks(slices[..i + 1]) == Chunks(slices[..i]) +
           if FindHeaderEnd(before).Some? then [buf] else if Body(before + buf) != [] then [Body(before + buf)] else []
  {
    hide Body, FindHeaderEnd;
    assert slices[..i + 1][..i] == slices[..i] && slices[..i + 1] == slices[..i] + [slices[i]];
    FlattenAppend(slices[..i], slices[i]);
  }

  /** However the reads slice the response, the chunks together are its body. */
  lemma {:induction false} ChunksAreBody(slices: seq<seq<byte>>)
    ensures Flatten(Chunks(slices)) == Body(Flatten(slices))
  {
    hide Body, FindHeaderEnd, Flatten;
    FlattenNone<byte>();
    if slices == [] {
      NoHeader();
    } else {
      var n := |slices| - 1;
      var before, buf := Flatten(slices[..n]), slices[n];
      assert slices[..n + 1] == slices == slices[..n] + [buf];
      ChunksAreBody(slices[..n]);
      ChunksNext(slices, n);
      if FindHeaderEnd(before).Some? {
        FoundStays(before, buf);
        FlattenAppend(Chunks(slices[..n]), buf);
      } else {
        NoBody(before);
        if Body(before + buf) != [] {
          FlattenAppend(Chunks(slices[..n]), Body(before + buf));
          assert [] + Body(before + buf) == Body(before + buf);
        } else {
          assert Chunks(slices[..n]) + [] == Chunks(slices[..n]);
        }
      }
    }
  }

  lemma {:induction false} ChunksNotEmpty(slices: seq<seq<byte>>)
    requires NoneEmpty(slices)
    ensures NoneEmpty(Chunks(slices))
  {
    hide Body, FindHeaderEnd, Flatten;
    if slices != [] {
      ChunksNotEmpty(slices[..|slices| - 1]);
    }
  }

  lemma NoHeader()
    ensures FindHeaderEnd([]).None? && Body([]) == []
  {
  }

  lemma NoBody(data: seq<byte>)
    ensures FindHeaderEnd(data).None? ==> Body(data) == []
  {
  }

  lemma FoundBody(data: seq<byte>)
    requires FindHeaderEnd(data).Some?
    ensures FindHeaderEnd(data).value + 4 <= |data| && Body(data) == data[FindHeaderEnd(data).value + 4..]
  {
    FoundExactly(data, FindHeaderEnd(data).value);
  }

  /** The read loop: `slices` are what the socket yields, `chunks` the arguments of the callback,
      in order. */
  method StreamBody(slices: seq<seq<byte>>) returns (chunks: seq<seq<byte>>)
    ensures chunks == Chunks(UntilEnd(slices))
    ensures Flatten(chunks) == Body(Flatten(UntilEnd(slices)))
    ensures NoneEmpty(chunks)
  {
    hide FindHeaderEnd, Body, Flatten, Chunks, UntilEnd;
    NoHeader();
    FlattenNone<byte>();
    NoChunks();
    ChunksAreBody(UntilEnd(slices));
    ChunksNotEmpty(UntilEnd(slices));
    assert slices[..0] == [];
    var headerConsumed := false;
    var leftover: seq<byte> := [];
    chunks := [];
    var i := 0;
    while i < |slices|
      invariant 0 <= i <= |slices|
      invariant forall k :: 0 <= k < i ==> slices[k] != []
      invariant headerConsumed <==> FindHeaderEnd(Flatten(slices[..i])).Some?
      invariant !headerConsumed ==> leftover == Flatten(slices[..i])
      invariant chunks == Chunks(slices[..i])
    {
      var buf := slices[i];
      if buf == [] {
        EndsAt(slices, i);
        return;
      }
      ChunksNext(slices, i);
      if !headerConsumed {
        leftover := leftover + buf;
        var end := FindHeaderEnd(leftover);
        if end.Some? {
          FoundBody(leftover);
          var body := leftover[end.value + 4..];
          headerConsumed := true;
          leftover := [];
          if body != [] {
            chunks := chunks + [body];
          }
        } else {
          NoBody(leftover);
        }
      } else {
        FoundStays(Flatten(slices[..i]), buf);
        chunks := chunks + [buf];
      }
      i := i + 1;
    }
    EndsAt(slices, i);
  }

  lemma NoChunks()
    ensures Chunks([]) == []
  {
  }

  /** The streamed body is the body of the whole response exactly when the response has a header
      separator or is empty: without one, streaming yields nothing and splitting yields everything. */
  lemma StreamedIsSplitExactly(raw: seq<byte>)
    ensures Body(raw) == SplitBody(raw) <==> FindHeaderEnd(raw).Some? || raw == []
  {
    FindFromIsFirst(raw, 0);
  }

  // ---- tailing events -----------------------------------------------------------------------

  /** The frames of a stream of reads: every chunk of the body goes through one parser. */
  function Tailed(slices: seq<seq<byte>>): seq<Frame> {
    FeedSlices(START, Chunks(UntilEnd(slices))).frames
  }

  method TailEvents(slices: seq<seq<byte>>) returns (frames: seq<Frame>)
    ensures frames == Tailed(slices)
  {
    hide Chunks, UntilEnd, Feed, Lossy;
    var chunks := StreamBody(slices);
    var parser := new SseLineParser();
    frames := [];
    assert chunks[..0] == [];
    for i := 0 to |chunks|
      invariant Fed(parser.Contents(), frames) == FeedSlices(START, chunks[..i])
    {
      assert chunks[..i + 1][..i] == chunks[..i];
      var out := parser.FeedChunk(chunks[i]);
      frames := frames + out;
    }
    assert chunks[..|chunks|] == chunks;
  }

  /** When no read ends inside a character of the body, the frames are those of the whole body
      in one piece, whatever the read sizes; an ASCII body has no character to cut. */
  lemma TailedIsWhole(slices: seq<seq<byte>>)
    ensures var body := Body(Flatten(UntilEnd(slices)));
      && (Uncut(Chunks(UntilEnd(slices))) ==> Tailed(slices) == Feed(START, Lossy(body)).frames)
      && (Ascii(body) ==> Uncut(Chunks(UntilEnd(slices))))
  {
    hide Chunks, UntilEnd, Feed, Lossy, Body, Uncut, Ascii;
    var chunks := Chunks(UntilEnd(slices));
    ChunksAreBody(UntilEnd(slices));
    ByteSlicesParse(START, chunks);
    if Ascii(Flatten(chunks)) {
      AsciiUncut(chunks);
    }
  }

  /** End to end: a response with a header and a body of printed events, one per chunk, read in
      any pieces that cut no character, yields exactly those events. */
  lemma TailedEvents(slices: seq<seq<byte>>, header: seq<byte>, body: seq<byte>, events: seq<Event>)
    requires FindHeaderEnd(header + SEPARATOR) == Some(|header|)
    requires Flatten(UntilEnd(slices)) == header + SEPARATOR + body
    requires body == Encode(Chunked(events)) && forall e :: e in events ==> Sendable(e)
    requires Uncut(Chunks(UntilEnd(slices)))
    ensures Tailed(slices) == Sent(events)
  {
    hide Chunks, UntilEnd, Feed, Lossy, Body, Uncut, Encode, Sendable;
    FoundStays(header + SEPARATOR, body);
    FoundBody(header + SEPARATOR);
    assert [] + body == body;
    TailedIsWhole(slices);
    EncodedDecodes(Chunked(events));
    ChunkedParses(events);
  }
}
