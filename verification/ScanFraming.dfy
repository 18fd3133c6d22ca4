/** clamd's INSTREAM framing: a command, then length-prefixed chunks, then a zero length. */
module ScanFraming {
  import opened Common

  type Byte = b: int | 0 <= b < 256
  const LIMIT: int := 0x1_0000_0000

  // struct.pack("!I", n)
  function Pack(n: nat): seq<Byte>
    requires n < LIMIT
  {
    [n / 0x100_0000, n / 0x1_0000 % 256, n / 256 % 256, n % 256]
  }

  function Unpack(w: seq<Byte>): (n: nat)
    requires |w| == 4
  {
    w[0] as int * 0x100_0000 + w[1] as int * 0x1_0000 + w[2] as int * 256 + w[3] as int
  }

  // "zINSTREAM\0"
  const COMMAND: seq<Byte> := [122, 73, 78, 83, 84, 82, 69, 65, 77, 0]

  // The reader's side: the chunks up to the zero length, which must be the end of the bytes.
  datatype Parsed = Parsed(chunks: seq<seq<Byte>>)

  function ReadFrames(w: seq<Byte>): Option<Parsed>
  {
    if |w| < 4 then None
    else
      var n := Unpack(w[..4]);
      if n == 0 then (if |w| == 4 then Some(Parsed([])) else None)
      else if |w| - 4 < n then None
      else
        match ReadFrames(w[4 + n..])
        case None => None
        case Some(rest) => Some(Parsed([w[4..4 + n]] + rest.chunks))
  }

  function ReadStream(w: seq<Byte>): Option<Parsed> {
    if |w| < |COMMAND| || w[..|COMMAND|] != COMMAND then None else ReadFrames(w[|COMMAND|..])
  }

  function Join(chunks: seq<seq<Byte>>): seq<Byte> {
    if chunks == [] then [] else chunks[0] + Join(chunks[1..])
  }

  function Frame(chunk: seq<Byte>): seq<Byte>
    requires |chunk| < LIMIT
  {
    Pack(|chunk|) + chunk
  }

  function Frames(chunks: seq<seq<Byte>>): seq<Byte>
    requires forall c :: c in chunks ==> |c| < LIMIT
  {
    if chunks == [] then [] else Frame(chunks[0]) + Frames(chunks[1..])
  }

  // How the content is cut: every chunk is full but possibly the last, and none is empty.
  ghost predicate IsCut(content: seq<Byte>, size: nat, chunks: seq<seq<Byte>>) {
    && Join(chunks) == content
    && (forall c :: c in chunks ==> 0 < |c| <= size)
    && (forall i :: 0 <= i < |chunks| - 1 ==> |chunks[i]| == size)
  }

  lemma {:induction false} JoinAppend(chunks: seq<seq<Byte>>, c: seq<Byte>)
    ensures Join(chunks + [c]) == Join(chunks) + c
  {
    if chunks == [] {
      assert [c][1..] == [];
    } else {
      assert (chunks + [c])[1..] == chunks[1..] + [c];
      JoinAppend(chunks[1..], c);
    }
  }

  lemma {:induction false} FramesAppend(chunks: seq<seq<Byte>>, c: seq<Byte>)
    requires |c| < LIMIT && forall d :: d in chunks ==> |d| < LIMIT
    ensures Frames(chunks + [c]) == Frames(chunks) + Frame(c)
  {
    if chunks == [] {
      assert [c][1..] == [];
    } else {
      assert (chunks + [c])[1..] == chunks[1..] + [c];
      FramesAppend(chunks[1..], c);
    }
  }

  lemma OneMore(n: int, size: int)
    ensures (n + 1) * size == n * size + size
  {
  }

  // The number of chunks is the content length divided by the size, rounded up.
  lemma {:induction false} ChunkCount(content: seq<Byte>, size: nat, chunks: seq<seq<Byte>>)
    requires size >= 1 && IsCut(content, size, chunks)
    ensures (|chunks| - 1) * size < |content| <= |chunks| * size || (chunks == [] && content == [])
    decreases |chunks|
  {
    if |chunks| == 1 {
      assert chunks[0] in chunks && chunks[1..] == [] && Join(chunks) == chunks[0];
    } else if |chunks| > 1 {
      var tail := chunks[1..];
      forall i | 0 <= i < |tail| - 1 ensures |tail[i]| == size {
        assert tail[i] == chunks[i + 1];
      }
      ChunkCount(Join(tail), size, tail);
      assert |chunks[0]| == size && |content| == size + |Join(tail)|;
      OneMore(|tail|, size);
      OneMore(|tail| - 1, size);
    }
  }

  function Min(a: nat, b: nat): nat {
    if a < b then a else b
  }

  lemma CutExtends(content: seq<Byte>, size: nat, chunks: seq<seq<Byte>>, chunk: seq<Byte>)
    requires IsCut(content, size, chunks) && 0 < |chunk| <= size
    requires chunks != [] ==> |chunks[|chunks| - 1]| == size
    ensures IsCut(content + chunk, size, chunks + [chunk])
  {
    JoinAppend(chunks, chunk);
  }

  lemma SliceExtends(content: seq<Byte>, a: nat, b: nat)
    requires a <= b <= |content|
    ensures content[..a] + content[a..b] == content[..b]
  {
  }

  lemma Associates(a: seq<Byte>, b: seq<Byte>, c: seq<Byte>)
    ensures a + b + c == a + (b + c)
  {
  }

  // Two writes: the length, then the chunk.
  method WriteFrame(wire: seq<Byte>, chunk: seq<Byte>) returns (out: seq<Byte>)
    requires |chunk| < LIMIT
    ensures out == wire + Frame(chunk)
  {
    out := wire + Pack(|chunk|);
    out := out + chunk;
    Associates(wire, Pack(|chunk|), chunk);
  }

  // One turn of the loop: the chunk from `offset` on, cut and framed.
  lemma SendOne(content: seq<Byte>, size: nat, offset: nat, head: seq<Byte>, chunks: seq<seq<Byte>>)
    requires 1 <= size < LIMIT && offset < |content| && IsCut(content[..offset], size, chunks)
    requires chunks != [] ==> |chunks[|chunks| - 1]| == size
    ensures var next := Min(offset + size, |content|);
            var chunk := content[offset..next];
            && IsCut(content[..next], size, chunks + [chunk])
            && head + Frames(chunks) + Frame(chunk) == head + Frames(chunks + [chunk])
  {
    var chunk := content[offset..Min(offset + size, |content|)];
    SliceExtends(content, offset, Min(offset + size, |content|));
    CutExtends(content[..offset], size, chunks, chunk);
    FramesAppend(chunks, chunk);
    Associates(head, Frames(chunks), Frame(chunk));
  }

  lemma UnpackPack(n: nat)
    requires n < LIMIT
    ensures Unpack(Pack(n)) == n
  {
    var a, b, c := n / 256, n / 0x1_0000, n / 0x100_0000;
    assert a == b * 256 + a % 256;
    assert b == c * 256 + b % 256 && c < 256;
  }

  lemma ReadOne(c: seq<Byte>, rest: seq<Byte>)
    requires 0 < |c| < LIMIT && ReadFrames(rest).Some?
    ensures ReadFrames(Frame(c) + rest) == Some(Parsed([c] + ReadFrames(rest).value.chunks))
  {
    var w := Frame(c) + rest;
    UnpackPack(|c|);
    Cut(Pack(|c|), c, rest);
  }

  lemma Cut(head: seq<Byte>, c: seq<Byte>, rest: seq<Byte>)
    ensures var w := head + c + rest;
            w[..|head|] == head && w[|head|..|head| + |c|] == c && w[|head| + |c|..] == rest
  {
  }

  lemma ReadEnd()
    ensures ReadFrames(Pack(0)) == Some(Parsed([]))
  {
    UnpackPack(0);
    assert Pack(0)[..4] == Pack(0);
  }

  lemma {:induction false} ReadBack(chunks: seq<seq<Byte>>, end: seq<Byte>)
    requires (forall c :: c in chunks ==> 0 < |c| < LIMIT) && ReadFrames(end) == Some(Parsed([]))
    ensures ReadFrames(Frames(chunks) + end) == Some(Parsed(chunks))
  {
    if chunks == [] {
      assert Frames(chunks) + end == end;
    } else {
      ReadBack(chunks[1..], end);
      ReadOne(chunks[0], Frames(chunks[1..]) + end);
      Associates(Frame(chunks[0]), Frames(chunks[1..]), end);
      assert chunks == [chunks[0]] + chunks[1..];
    }
  }

  // Whatever the content and the chunk size, the reader recovers the chunks, and with them the content, exactly.
  lemma StreamRoundTrip(content: seq<Byte>, size: nat, wire: seq<Byte>, chunks: seq<seq<Byte>>)
    requires 1 <= size < LIMIT && IsCut(content, size, chunks)
    requires (forall c :: c in chunks ==> |c| < LIMIT) && wire == COMMAND + Frames(chunks) + Pack(0)
    ensures ReadStream(wire) == Some(Parsed(chunks))
  {
    ReadEnd();
    ReadBack(chunks, Pack(0));
    HeadAndTail(COMMAND, Frames(chunks), Pack(0));
  }

  lemma HeadAndTail(head: seq<Byte>, body: seq<Byte>, end: seq<Byte>)
    ensures (head + body + end)[..|head|] == head && (head + body + end)[|head|..] == body + end
  {
  }

  // What the scanner writes to the socket: a reader finds exactly the content in it, cut into chunks.
  method SendStream(content: seq<Byte>, size: nat) returns (wire: seq<Byte>)
    requires 1 <= size < LIMIT
    ensures ReadStream(wire).Some? && IsCut(content, size, ReadStream(wire).value.chunks)
    ensures (forall c :: c in ReadStream(wire).value.chunks ==> |c| < LIMIT)
            && wire == COMMAND + Frames(ReadStream(wire).value.chunks) + Pack(0)
  {
    var head := COMMAND;
    wire := head;
    ghost var chunks: seq<seq<Byte>> := [];
    assert head + Frames([]) == head;
    var offset := 0;
    while offset < |content|
      invariant IsCut(content[..Min(offset, |content|)], size, chunks)
      invariant offset <= |content| && chunks != [] ==> |chunks[|chunks| - 1]| == size
      invariant wire == head + Frames(chunks)
    {
      var chunk := content[offset..Min(offset + size, |content|)];
      SendOne(content, size, offset, head, chunks);
      wire := WriteFrame(wire, chunk);
      chunks := chunks + [chunk];
      offset := offset + size;
    }
    assert content[..|content|] == content;
    wire := wire + Pack(0);
    StreamRoundTrip(content, size, wire, chunks);
  }

  // No proper prefix of a complete stream is complete: a broken connection is never taken for the whole content.
  lemma {:induction false} PrefixIsIncomplete(w: seq<Byte>, cut: nat)
    requires ReadFrames(w).Some? && cut < |w|
    ensures ReadFrames(w[..cut]).None?
  {
    var p := w[..cut];
    if cut >= 4 {
      assert p[..4] == w[..4];
      var n := Unpack(w[..4]);
      if n != 0 && cut - 4 >= n {
        assert p[4 + n..] == w[4 + n..][..cut - 4 - n];
        PrefixIsIncomplete(w[4 + n..], cut - 4 - n);
      }
    }
  }

  lemma TruncatedStreamIsRejected(w: seq<Byte>, cut: nat)
    requires ReadStream(w).Some? && cut < |w|
    ensures ReadStream(w[..cut]).None?
  {
    if cut >= |COMMAND| {
      assert w[..cut][|COMMAND|..] == w[|COMMAND|..][..cut - |COMMAND|];
      PrefixIsIncomplete(w[|COMMAND|..], cut - |COMMAND|);
    }
  }
}
