// Writing a byte stream to a file with holes for zero blocks
// (crates/pertisk-daemon/src/service.rs and http.rs).
module SparseFile {
  import opened Prelude

  type byte = x: int | 0 <= x < 0x100

  const BLOCK := 64 * 1024

  function Filled<T>(n: nat, x: T): seq<T> {
    seq(n, _ => x)
  }

  predicate AllZero(piece: seq<byte>) {
    forall b <- piece :: b == 0
  }

  // A new length: the excess goes, a gap is filled.
  function Resize<T>(s: seq<T>, n: nat, fill: T): seq<T> {
    if n <= |s| then s[..n] else s + Filled(n - |s|, fill)
  }

  function Overwrite<T>(s: seq<T>, at: nat, piece: seq<T>, fill: T): seq<T> {
    Resize(s, at, fill) + piece + if at + |piece| < |s| then s[at + |piece|..] else []
  }

  lemma AtTheEnd<T>(s: seq<T>, piece: seq<T>, fill: T)
    ensures Overwrite(s, |s|, piece, fill) == s + piece
    ensures Resize(s, |s| + |piece|, fill) == s + Filled(|piece|, fill)
  {
  }

  lemma ZeroPiece(piece: seq<byte>)
    requires AllZero(piece)
    ensures piece == Filled(|piece|, 0)
  {
    assert forall i | 0 <= i < |piece| :: piece[i] in piece;
  }

  // `backed` tells which bytes take up space on disk: those that were written. A gap reads as zeros.
  class File {
    var data: seq<byte>
    var backed: seq<bool>
    var cursor: nat

    constructor Create()
      ensures data == [] && backed == [] && cursor == 0
    {
      data, backed, cursor := [], [], 0;
    }

    method WriteAll(piece: seq<byte>)
      modifies this
      ensures data == Overwrite(old(data), old(cursor), piece, 0)
      ensures backed == Overwrite(old(backed), old(cursor), Filled(|piece|, true), false)
      ensures cursor == old(cursor) + |piece|
    {
      data := Overwrite(data, cursor, piece, 0);
      backed := Overwrite(backed, cursor, Filled(|piece|, true), false);
      cursor := cursor + |piece|;
    }

    method SetLen(n: nat)
      modifies this`data, this`backed
      ensures data == Resize(old(data), n, 0) && backed == Resize(old(backed), n, false)
    {
      data, backed := Resize(data, n, 0), Resize(backed, n, false);
    }

    method Seek(n: nat)
      modifies this`cursor
      ensures cursor == n
    {
      cursor := n;
    }

    // How every download starts and goes on: cursor, length and count written agree.
    ghost predicate AtEnd(pos: nat)
      reads this
    {
      cursor == pos == |data| == |backed|
    }
  }

  // The block of the chunk that byte i falls in.
  function BlockAround(chunk: seq<byte>, i: nat): seq<byte>
    requires i < |chunk|
  {
    chunk[i / BLOCK * BLOCK..Min((i / BLOCK + 1) * BLOCK, |chunk|)]
  }

  // The bytes of a chunk that have to take up space: those in a block that is not all zeros.
  function Occupied(chunk: seq<byte>): seq<bool> {
    seq(|chunk|, i requires 0 <= i < |chunk| => !AllZero(BlockAround(chunk, i)))
  }

  lemma BlockIs(chunk: seq<byte>, off: nat, stop: nat, i: nat)
    requires off % BLOCK == 0 && off <= i < stop && stop == Min(off + BLOCK, |chunk|)
    ensures BlockAround(chunk, i) == chunk[off..stop]
  {
    assert i / BLOCK * BLOCK == off;
  }

  lemma OccupiedGrows(chunk: seq<byte>, off: nat, stop: nat)
    requires off % BLOCK == 0 && off < |chunk| && stop == Min(off + BLOCK, |chunk|)
    ensures Occupied(chunk)[..stop]
         == Occupied(chunk)[..off] + Filled(stop - off, !AllZero(chunk[off..stop]))
  {
    hide BlockAround, AllZero;
    forall i | off <= i < stop
      ensures Occupied(chunk)[i] == !AllZero(chunk[off..stop])
    {
      BlockIs(chunk, off, stop, i);
    }
  }

  lemma OccupiedSize(chunk: seq<byte>)
    ensures |Occupied(chunk)| == |chunk|
  {
  }

  // A byte takes up space exactly when some byte of its 64 KiB block is not zero.
  lemma OccupiedIs(chunk: seq<byte>)
    ensures forall i | 0 <= i < |chunk| ::
      Occupied(chunk)[i] <==> exists j | 0 <= j < |chunk| :: j / 65536 == i / 65536 && chunk[j] != 0
  {
    forall i | 0 <= i < |chunk|
      ensures Occupied(chunk)[i] <==> exists j | 0 <= j < |chunk| :: j / 65536 == i / 65536 && chunk[j] != 0
    {
      var lo := i / 65536 * 65536;
      var block := BlockAround(chunk, i);
      assert forall k | 0 <= k < |block| :: block[k] == chunk[lo + k] && (lo + k) / 65536 == i / 65536;
      if j :| 0 <= j < |chunk| && j / 65536 == i / 65536 && chunk[j] != 0 {
        assert block[j - lo] == chunk[j] && block[j - lo] in block;
      }
      if !AllZero(block) {
        var b :| b in block && b != 0;
        var k :| 0 <= k < |block| && block[k] == b;
        assert (lo + k) / 65536 == i / 65536 && chunk[lo + k] != 0;
      }
    }
  }

  // One block: skipped when it is all zeros, written otherwise.
  method WriteBlock(file: File, pos: nat, piece: seq<byte>) returns (end: nat)
    requires file.AtEnd(pos)
    modifies file
    ensures file.data == old(file.data) + piece
    ensures file.backed == old(file.backed) + Filled(|piece|, !AllZero(piece))
    ensures end == pos + |piece| && file.AtEnd(end)
  {
    hide AllZero, Overwrite, Resize;
    AtTheEnd(file.data, piece, 0);
    AtTheEnd(file.backed, Filled(|piece|, true), false);
    AtTheEnd(file.backed, Filled(|piece|, false), false);
    end := pos + |piece|;
    if AllZero(piece) {
      ZeroPiece(piece);
      file.SetLen(end);
      file.Seek(end);
    } else {
      file.WriteAll(piece);
    }
  }

  // The bytes are the dense ones, and the zero blocks take no space.
  method WriteSparseChunk(file: File, pos: nat, chunk: seq<byte>) returns (end: nat)
    requires file.AtEnd(pos)
    modifies file
    ensures file.data == old(file.data) + chunk
    ensures file.backed == old(file.backed) + Occupied(chunk)
    ensures |file.backed| == |old(file.backed)| + |chunk|
    ensures forall i | 0 <= i < |chunk| ::
      file.backed[|old(file.backed)| + i] <==>
        exists j | 0 <= j < |chunk| :: j / 65536 == i / 65536 && chunk[j] != 0
    ensures file.AtEnd(end)
  {
    hide Occupied, AllZero, Filled;
    OccupiedSize(chunk);
    end := pos;
    var off := 0;
    while off < |chunk|
      invariant off <= |chunk| && (off < |chunk| ==> off % BLOCK == 0)
      invariant end == pos + off && file.AtEnd(end)
      invariant file.data == old(file.data) + chunk[..off]
      invariant file.backed == old(file.backed) + Occupied(chunk)[..off]
    {
      var stop := Min(off + BLOCK, |chunk|);
      var piece := chunk[off..stop];
      OccupiedGrows(chunk, off, stop);
      assert chunk[..stop] == chunk[..off] + piece;
      end := WriteBlock(file, end, piece);
      off := stop;
    }
    assert chunk[..off] == chunk;
    assert Occupied(chunk)[..off] == Occupied(chunk);
    OccupiedIs(chunk);
  }

  function Concat(chunks: seq<seq<byte>>): seq<byte> {
    if chunks == [] then [] else Concat(chunks[..|chunks| - 1]) + chunks[|chunks| - 1]
  }

  // What arrived before the first error of a stream.
  function Arrived<E>(stream: seq<Result<seq<byte>, E>>): seq<seq<byte>> {
    if stream == [] || stream[0].Err? then [] else [stream[0].value] + Arrived(stream[1..])
  }

  predicate AllOk<E>(stream: seq<Result<seq<byte>, E>>) {
    forall i | 0 <= i < |stream| :: stream[i].Ok?
  }

  lemma {:induction false} ArrivedExtends<E>(stream: seq<Result<seq<byte>, E>>, i: nat)
    requires i < |stream| && AllOk(stream[..i])
    ensures |Arrived(stream[..i])| == i
    ensures Arrived(stream[..i + 1]) == Arrived(stream[..i]) + (if stream[i].Ok? then [stream[i].value] else [])
    ensures stream[i].Err? ==> Arrived(stream) == Arrived(stream[..i])
  {
    if i > 0 {
      assert stream[..i][1..] == stream[1..][..i - 1] && stream[..i + 1][1..] == stream[1..][..i];
      ArrivedExtends(stream[1..], i - 1);
    }
  }

  // The file is the concatenation of the chunks, wherever the stream was cut and wherever it has
  // zeros; a stream that breaks leaves the chunks that came before.
  method StreamToFile<E>(stream: seq<Result<seq<byte>, E>>) returns (file: File, written: Result<nat, E>)
    ensures file.data == Concat(Arrived(stream))
    ensures AllOk(stream) ==> written == Ok(|file.data|)
    ensures !AllOk(stream) ==>
              exists i | 0 <= i < |stream| :: AllOk(stream[..i]) && stream[i].Err? && written == Err(stream[i].error)
  {
    file := new File.Create();
    var pos: nat := 0;
    var i := 0;
    while i < |stream|
      invariant 0 <= i <= |stream| && AllOk(stream[..i])
      invariant fresh(file) && file.AtEnd(pos)
      invariant file.data == Concat(Arrived(stream[..i]))
    {
      ArrivedExtends(stream, i);
      match stream[i] {
        case Err(error) =>
          return file, Err(error);
        case Ok(chunk) =>
          pos := WriteSparseChunk(file, pos, chunk);
      }
      assert stream[..i + 1] == stream[..i] + [stream[i]];
      i := i + 1;
    }
    assert stream[..i] == stream;
    written := Ok(pos);
  }

  lemma {:induction false} ConcatOfJoined(front: seq<seq<byte>>, a: seq<byte>, b: seq<byte>, back: seq<seq<byte>>)
    ensures Concat(front + [a, b] + back) == Concat(front + [a + b] + back)
  {
    var cut, joined := front + [a, b] + back, front + [a + b] + back;
    if back == [] {
      assert cut[..|cut| - 1] == front + [a] && (front + [a])[..|front|] == front;
      assert joined[..|joined| - 1] == front;
    } else {
      var init := back[..|back| - 1];
      assert cut[..|cut| - 1] == front + [a, b] + init && joined[..|joined| - 1] == front + [a + b] + init;
      ConcatOfJoined(front, a, b, init);
    }
  }
}
