/** The output side of the JPEG front end: the 512-byte window the encoder writes into, and the trimming
    of what follows the end marker. */
module JpegOutput {
  import opened JpegInput

  const OUTPUT_CHUNK_SIZE: nat := 512

  class Output {
    const buffer: array<byte>
    var realSize: nat
    var ifError: bool
    /** Where the encoder writes next; the source hands this pointer to the driver. */
    var window: nat
    /** The length of the compressed image. */
    var bpp: nat
    /** Everything the encoder has delivered. */
    ghost var delivered: seq<byte>

    /** The output is contiguous, and until overflow is signalled the window starts behind it and lies
        inside the buffer. */
    ghost predicate Valid()
      reads this, buffer
    {
      && realSize <= buffer.Length && buffer[..realSize] == delivered
      && (!ifError ==> window == realSize && window + OUTPUT_CHUNK_SIZE <= buffer.Length)
    }

    /** The part of bsp_jpeg_compress that sets up the output. */
    constructor (size: nat)
      requires OUTPUT_CHUNK_SIZE <= size
      ensures Valid() && fresh(buffer) && buffer.Length == size && !ifError && delivered == []
    {
      buffer := new byte[size];
      realSize, ifError, window, bpp, delivered := 0, false, 0, 0, [];
    }

    /** HAL_JPEG_DataReadyCallback */
    method DataReadyCallback(dataOut: nat, length: nat)
      modifies this`realSize, this`ifError, this`window
      ensures realSize == old(realSize) + length
      ensures realSize + OUTPUT_CHUNK_SIZE > buffer.Length ==> ifError && window == old(window)
      ensures realSize + OUTPUT_CHUNK_SIZE <= buffer.Length ==> ifError == old(ifError) && window == dataOut + length
    {
      realSize := realSize + length;
      if realSize + OUTPUT_CHUNK_SIZE > buffer.Length {
        ifError := true;
      } else {
        window := dataOut + length;
      }
    }

    /** The encoder fills at most one window and reports it. */
    method Deliver(data: seq<byte>)
      requires Valid() && !ifError && |data| <= OUTPUT_CHUNK_SIZE
      modifies this, buffer
      ensures Valid() && delivered == old(delivered) + data
      ensures ifError <==> |delivered| + OUTPUT_CHUNK_SIZE > buffer.Length
    {
      forall i | 0 <= i < |data| {
        buffer[window + i] := data[i];
      }
      delivered := delivered + data;
      assert buffer[..realSize + |data|] == buffer[..realSize] + buffer[realSize..realSize + |data|];
      DataReadyCallback(window, |data|);
    }

    /** HAL_JPEG_EncodeCpltCallback.  `pending` is the state of the output FIFO in which the last byte of the
        end marker was not written.  The source calls the extra byte always safe: it is, exactly unless the
        output fills the buffer to its last byte, and that takes an overflow.  Then it goes to the byte
        behind the buffer, which is not part of the model. */
    method EncodeCpltCallback(pending: bool) returns (outside: bool)
      requires Valid()
      modifies this`bpp, buffer
      ensures outside <==> pending && |delivered| == buffer.Length
      ensures outside ==> ifError && bpp == buffer.Length + 1 && buffer[..] == delivered
      ensures !outside ==> bpp <= buffer.Length && buffer[..bpp] == if pending then delivered + [0xD9] else delivered
    {
      assert |buffer[..realSize]| == |delivered|;
      bpp, outside := realSize, false;
      if pending {
        if bpp < buffer.Length {
          buffer[bpp] := 0xD9;
        } else {
          outside := true;
        }
        bpp := bpp + 1;
      }
    }
  }

  /** And it happens: one full window in a buffer of one window. */
  method FullBuffer(piece: seq<byte>) returns (outside: bool)
    requires |piece| == OUTPUT_CHUNK_SIZE
    ensures outside
  {
    var output := new Output(OUTPUT_CHUNK_SIZE);
    output.Deliver(piece);
    outside := output.EncodeCpltCallback(true);
  }

  // ---- Trailing bytes ----

  /** The end marker of section B.1.1.3 of ITU-T T.81 ends just before n. */
  predicate EndsAt(s: seq<byte>, n: nat) {
    2 <= n <= |s| && s[n - 2] == 0xFF && s[n - 1] == 0xD9
  }

  ghost predicate HasEnd(s: seq<byte>) {
    exists m: nat :: EndsAt(s, m)
  }

  ghost predicate LastEnd(s: seq<byte>, n: nat) {
    EndsAt(s, n) && forall m: nat :: EndsAt(s, m) ==> m <= n
  }

  /** jpeg_clean_trailing_bytes stops behind the last end marker; without one it leaves at most one byte. */
  method CleanTrailingBytes(size: nat, data: array<byte>) returns (n: nat)
    requires size <= data.Length
    ensures n <= size
    ensures HasEnd(data[..size]) ==> LastEnd(data[..size], n)
    ensures !HasEnd(data[..size]) ==> n == if size > 1 then 1 else size
    ensures n > 1 ==> data[n - 2] == 0xFF && data[n - 1] == 0xD9
    ensures forall j :: 0 < n <= j + 1 < size && data[j] == 0xFF ==> data[j + 1] != 0xD9
  {
    n := size;
    while n > 1 && (data[n - 2] != 0xFF || data[n - 1] != 0xD9)
      invariant n <= size && (size > 0 ==> n > 0)
      invariant forall m: nat :: n < m ==> !EndsAt(data[..size], m)
    {
      n := n - 1;
    }
    assert n > 1 ==> EndsAt(data[..size], n);
    forall j | 0 < n <= j + 1 < size && data[j] == 0xFF ensures data[j + 1] != 0xD9 {
      assert !EndsAt(data[..size], j + 2);
    }
    assert forall m: nat :: EndsAt(data[..size], m) ==> m > 1;
  }

  /** The deliveries of a run, up to overflow. */
  method DeliverAll(pieces: seq<seq<byte>>, size: nat) returns (output: Output)
    requires OUTPUT_CHUNK_SIZE <= size && forall i :: 0 <= i < |pieces| ==> |pieces[i]| <= OUTPUT_CHUNK_SIZE
    ensures fresh(output) && fresh(output.buffer) && output.Valid() && output.buffer.Length == size
    ensures output.ifError <==> |Joined(pieces)| + OUTPUT_CHUNK_SIZE > size
    ensures !output.ifError ==> output.delivered == Joined(pieces)
  {
    output := new Output(size);
    var i := 0;
    while i < |pieces| && !output.ifError
      invariant 0 <= i <= |pieces| && fresh(output) && fresh(output.buffer) && output.Valid()
      invariant output.buffer.Length == size && output.delivered == Joined(pieces[..i])
      invariant output.ifError <==> |output.delivered| + OUTPUT_CHUNK_SIZE > size
    {
      assert pieces[..i + 1][..i] == pieces[..i];
      output.Deliver(pieces[i]);
      i := i + 1;
    }
    JoinedGrows(pieces, i);
    if !output.ifError {
      assert pieces[..i] == pieces;
    }
  }

  /** A whole run: whatever the encoder delivers, in pieces of at most one window, either overflow is signalled,
      which happens exactly when less than a window is left behind it, or the result is what was delivered,
      up to and including the last end marker in it. */
  method Collect(pieces: seq<seq<byte>>, pending: bool, size: nat) returns (output: Output, n: nat)
    requires OUTPUT_CHUNK_SIZE <= size && forall i :: 0 <= i < |pieces| ==> |pieces[i]| <= OUTPUT_CHUNK_SIZE
    ensures fresh(output) && fresh(output.buffer) && output.buffer.Length == size
    ensures output.ifError <==> |Joined(pieces)| + OUTPUT_CHUNK_SIZE > size
    ensures var all := if pending then Joined(pieces) + [0xD9] else Joined(pieces);
            !output.ifError ==>
              n <= |all| <= size && output.buffer[..n] == all[..n] && (HasEnd(all) ==> LastEnd(all, n))
  {
    hide Joined, LastEnd, HasEnd;
    output := DeliverAll(pieces, size);
    n := 0;
    if !output.ifError {
      var _ := output.EncodeCpltCallback(pending);
      n := CleanTrailingBytes(output.bpp, output.buffer);
      assert output.buffer[..n] == output.buffer[..output.bpp][..n];
    }
  }

  ghost function Joined(pieces: seq<seq<byte>>): seq<byte> {
    if pieces == [] then [] else Joined(pieces[..|pieces| - 1]) + pieces[|pieces| - 1]
  }

  lemma {:induction false} JoinedGrows(pieces: seq<seq<byte>>, i: nat)
    requires i <= |pieces|
    ensures |Joined(pieces[..i])| <= |Joined(pieces)|
  {
    if i == |pieces| {
      assert pieces[..i] == pieces;
    } else {
      var shorter := pieces[..|pieces| - 1];
      assert shorter[..i] == pieces[..i];
      JoinedGrows(shorter, i);
    }
  }

  /** Trimming is exact: an image that ends in its marker, followed by bytes without one, comes back whole. */
  lemma ImageIsKept(image: seq<byte>, rest: seq<byte>, n: nat)
    requires EndsAt(image, |image|) && !HasEnd(rest) && LastEnd(image + rest, n)
    ensures (image + rest)[..n] == image
  {
    assert EndsAt(image + rest, |image|);
    if n > |image| + 1 {
      assert EndsAt(rest, n - |image|);
    }
  }
}
