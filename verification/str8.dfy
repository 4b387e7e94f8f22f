/** What a running program can observe of the host: the Sleep and Write system calls. The host's
    answer to a write (how many bytes it accepted, negative on error) is a parameter. */
module Effects {
  import opened Int64

  datatype Event =
    | Slept(ms: int)
    | Wrote(data: seq<Byte>, n: int)

  /** The count the host's `write` returns for the `k`-th event of a run writing `data`. */
  type Host = (nat, seq<Byte>) -> int
}

/** str8 strings: a length byte followed by that many data bytes, packed little-endian into
    consecutive words, as the assembler emits them and the VMs' Write system call prints them. */
module Str8 {
  import opened Base
  import opened Int64
  import opened Bytes
  import opened Effects

  /** The panics of the encoders and of the system calls' memory accesses. */
  datatype Str8Error =
    | UnsupportedByteCount(n: int)
    | LengthOutOfRange(n: int)
    | InvalidReadSize(n: int)
    | OutOfBounds(index: int)

  function Zeros(n: nat): seq<Byte> { Repeat(0, n) }

  lemma {:induction false} PackZeros(b: seq<Byte>, n: nat)
    ensures Pack(b + Zeros(n)) == Pack(b)
  {
    if |b| == 0 {
      assert b + Zeros(n) == Zeros(n);
      if n > 0 {
        assert Zeros(n)[1..] == Zeros(n - 1);
        PackZeros([], n - 1);
        assert [] + Zeros(n - 1) == Zeros(n - 1);
      }
    } else {
      assert (b + Zeros(n))[1..] == b[1..] + Zeros(n);
      PackZeros(b[1..], n);
    }
  }

  lemma {:induction false} Pow256Monotone(m: nat, n: nat)
    requires m <= n
    ensures Pow256(m) <= Pow256(n)
  {
    if m < n {
      Pow256Monotone(m, n - 1);
    }
  }

  /** `serialize` / `Serialize`: one to eight bytes packed into a word, the first byte least
      significant and the unused high bytes zero. Any other count panics. */
  function Serialize(b: seq<Byte>): (r: Result<i64, Str8Error>)
    ensures r.Ok? <==> 1 <= |b| <= 8
    ensures r.Err? ==> r.error == UnsupportedByteCount(|b|)
    ensures r.Ok? ==> WordBytes(r.value) == b + Zeros(8 - |b|)
    ensures r.Ok? && |b| < 8 ==> 0 <= r.value < Pow256(|b|)
  {
    if |b| == 0 || |b| > 8 then Err(UnsupportedByteCount(|b|))
    else
      PackFacts(b);
      Ok(Signed(Pack(b)))
  }

  lemma PackFacts(b: seq<Byte>)
    requires 1 <= |b| <= 8
    ensures Pack(b) < TWO64
    ensures BytesOf(Pack(b), 8) == b + Zeros(8 - |b|)
    ensures |b| < 8 ==> Pack(b) < Pow256(|b|) <= Pow256(7) < TWO63
  {
    PackZeros(b, 8 - |b|);
    PackBound(b);
    Pow256Monotone(|b|, 8);
    Pow256Eight();
    BytesOfPack(b + Zeros(8 - |b|));
    if |b| < 8 {
      Pow256Monotone(|b|, 7);
      assert Pow256(8) == 256 * Pow256(7);
    }
  }

  /** The loop of `serialize`: shift the accumulated value up a byte and or in the next byte, from
      the last byte down to the first. */
  method SerializeLoop(b: seq<Byte>) returns (r: Result<i64, Str8Error>)
    ensures r == Serialize(b)
  {
    if |b| == 0 || |b| > 8 {
      return Err(UnsupportedByteCount(|b|));
    }
    var result: nat := 0;
    var i := |b|;
    while i > 0
      invariant 0 <= i <= |b|
      invariant result == Pack(b[i..])
    {
      i := i - 1;
      assert b[i..][1..] == b[i + 1..];
      result := result * 256 + b[i];
    }
    PackBound(b);
    Pow256Monotone(|b|, 8);
    Pow256Eight();
    return Ok(Signed(result));
  }

  /** `w << 8 | lengthByte` for a word `w` holding at most seven bytes. */
  function PrefixByte(w: int, lengthByte: Byte): (r: i64)
    requires 0 <= w < Pow256(7)
    ensures WordBytes(r) == [lengthByte] + BytesOf(w, 7)
  {
    Pow256Eight();
    assert Pow256(8) == 256 * Pow256(7);
    var u := w * 256 + lengthByte;
    assert u % 256 == lengthByte && u / 256 == w;
    Signed(u)
  }

  /** The words after the first: the remaining bytes eight at a time, the last chunk shorter. */
  function Chunks(rest: seq<Byte>): (ws: seq<i64>)
    ensures |ws| == (|rest| + 7) / 8
    decreases |rest|
  {
    if |rest| == 0 then []
    else
      var c := Min(|rest|, 8);
      [Serialize(rest[..c]).value] + Chunks(rest[c..])
  }

  /** The str8 layout shared by both encoders: the first word holds `lengthByte` and up to seven
      data bytes, and the rest follow in chunks of eight. */
  function Str8Words(lengthByte: Byte, b: seq<Byte>): (ws: seq<i64>)
    requires 1 <= |b|
    ensures |ws| == (|b| + 8) / 8
  {
    var f := Min(|b|, 7);
    [PrefixByte(Serialize(b[..f]).value, lengthByte)] + Chunks(b[f..])
  }

  lemma {:induction false} ChunksBytes(rest: seq<Byte>)
    ensures MemBytes(Chunks(rest)) == rest + Zeros(8 * |Chunks(rest)| - |rest|)
    decreases |rest|
  {
    if |rest| > 0 {
      var c := Min(|rest|, 8);
      var w := Serialize(rest[..c]).value;
      MemBytesAppend([w], Chunks(rest[c..]));
      MemBytesSingle(w);
      ChunksBytes(rest[c..]);
      if c == 8 {
        assert rest == rest[..c] + rest[c..];
      } else {
        assert rest[c..] == [];
        assert Zeros(8 - c) == Zeros(8 * |Chunks(rest)| - |rest|);
      }
    }
  }

  /** The first word of a str8: the length byte, then up to seven data bytes, then zeros. */
  lemma FirstWordBytes(lengthByte: Byte, b: seq<Byte>)
    requires 1 <= |b|
    ensures var f := Min(|b|, 7);
            WordBytes(PrefixByte(Serialize(b[..f]).value, lengthByte)) == [lengthByte] + b[..f] + Zeros(7 - f)
  {
    var f := Min(|b|, 7);
    var w := Serialize(b[..f]).value;
    BytesOfPrefix(Unsigned(w), 7, 8);
    assert (b[..f] + Zeros(8 - f))[..7] == b[..f] + Zeros(7 - f);
  }

  /** The memory image of a str8: the length byte, the data, then zero padding to a word
      boundary. */
  lemma Str8WordsBytes(lengthByte: Byte, b: seq<Byte>)
    requires 1 <= |b|
    ensures MemBytes(Str8Words(lengthByte, b)) == [lengthByte] + b + Zeros(8 * |Str8Words(lengthByte, b)| - |b| - 1)
  {
    var f := Min(|b|, 7);
    Str8WordsSplit(lengthByte, b);
    FirstWordBytes(lengthByte, b);
    ChunksBytes(b[f..]);
    Str8Layout(lengthByte, b, f, |Chunks(b[f..])|);
  }

  /** A str8's memory image is its first word's bytes, then the bytes of the rest. */
  lemma Str8WordsSplit(lengthByte: Byte, b: seq<Byte>)
    requires 1 <= |b|
    ensures var f := Min(|b|, 7);
            MemBytes(Str8Words(lengthByte, b))
            == WordBytes(PrefixByte(Serialize(b[..f]).value, lengthByte)) + MemBytes(Chunks(b[f..]))
  {
    var f := Min(|b|, 7);
    var first := PrefixByte(Serialize(b[..f]).value, lengthByte);
    MemBytesAppend([first], Chunks(b[f..]));
    MemBytesSingle(first);
  }

  /** The padding after the first word's data and after the rest's data joins into one run. */
  lemma Str8Layout(lengthByte: Byte, b: seq<Byte>, f: nat, n: nat)
    requires 1 <= |b| && f == Min(|b|, 7) && n == (|b| - f + 7) / 8
    ensures 8 * n >= |b| - f && 8 * (1 + n) >= |b| + 1
    ensures [lengthByte] + b[..f] + Zeros(7 - f) + b[f..] + Zeros(8 * n - (|b| - f))
            == [lengthByte] + b + Zeros(8 * (1 + n) - |b| - 1)
  {
    if f == 7 {
      assert Zeros(0) == [];
      assert b[..f] + b[f..] == b;
    } else {
      assert b[f..] == [] && b[..f] == b;
    }
  }

  lemma {:induction false} BytesOfPrefix(u: nat, m: nat, n: nat)
    requires m <= n
    ensures BytesOf(u, n)[..m] == BytesOf(u, m)
  {
    if m > 0 {
      BytesOfPrefix(u / 256, m - 1, n - 1);
      assert BytesOf(u, n)[..m] == [u % 256] + BytesOf(u / 256, n - 1)[..m - 1];
    }
  }

  /** The assembler's `serializeStr8`: one to 255 bytes, whose length is the first byte. */
  function AsmSerializeStr8(b: seq<Byte>): (r: Result<seq<i64>, Str8Error>)
    ensures r.Ok? <==> 1 <= |b| <= 255
    ensures r.Err? ==> r.error == LengthOutOfRange(|b|)
    ensures r.Ok? ==> |r.value| == (|b| + 8) / 8
  {
    if |b| == 0 || |b| > 255 then Err(LengthOutOfRange(|b|)) else Ok(Str8Words(|b|, b))
  }

  /** The VM package's `SerializeStr8`: one to 256 bytes, whose length minus one is the first
      byte. */
  function CpuSerializeStr8(b: seq<Byte>): (r: Result<seq<i64>, Str8Error>)
    ensures r.Ok? <==> 1 <= |b| <= 256
    ensures r.Err? ==> r.error == LengthOutOfRange(|b|)
    ensures r.Ok? ==> |r.value| == (|b| + 8) / 8
  {
    if |b| == 0 || |b| > 256 then Err(LengthOutOfRange(|b|)) else Ok(Str8Words(|b| - 1, b))
  }

  /** The outcome of a Write system call that did not fault: the count it returns and the event
      the host saw, if any. */
  datatype Write = Write(ret: int, event: Option<Event>)

  /** The byte range a Write at `index` reads lies inside `memory`: the length byte, then that many
      bytes. */
  predicate WriteInBounds(memory: seq<i64>, index: int)
  {
    && 0 <= index < 8 * |memory|
    && index + 1 + MemBytes(memory)[index] <= 8 * |memory|
  }

  /** The data bytes of the str8 whose length byte is at `index`. */
  function Str8At(memory: seq<i64>, index: int): seq<Byte>
    requires WriteInBounds(memory, index)
  {
    var bytes := MemBytes(memory);
    bytes[index + 1 .. index + 1 + bytes[index]]
  }

  /** `sysWrite` (Go) and `sys_print` (C): print the str8 whose length byte is at byte `index` of
      `memory`. A zero length prints nothing and returns 0; otherwise the host sees the data bytes,
      and the call returns the length when the host took every byte and -1 when it did not.
      Reading outside `memory` panics in Go and is undefined in C. */
  function WriteStr8(host: Host, k: nat, memory: seq<i64>, index: int): (r: Result<Write, Str8Error>)
    ensures r.Err? <==> !(0 <= index < 8 * |memory|) || (MemBytes(memory)[index] != 0 && !WriteInBounds(memory, index))
    ensures r.Ok? && MemBytes(memory)[index] == 0 ==> r.value == Write(0, None)
    ensures r.Ok? && MemBytes(memory)[index] != 0 ==>
              && r.value.event == Some(Wrote(Str8At(memory, index), host(k, Str8At(memory, index))))
              && (r.value.ret == MemBytes(memory)[index] <==> host(k, Str8At(memory, index)) == MemBytes(memory)[index])
              && (r.value.ret != MemBytes(memory)[index] ==> r.value.ret == -1)
  {
    var bytes := MemBytes(memory);
    if index < 0 || index >= |bytes| then Err(OutOfBounds(index))
    else
      var length := bytes[index];
      if length == 0 then Ok(Write(0, None))
      else if index + 1 + length > |bytes| then Err(OutOfBounds(index + length))
      else
        var data := bytes[index + 1 .. index + 1 + length];
        var n := host(k, data);
        Ok(Write(if n == length then length else -1, Some(Wrote(data, n))))
  }

  /** `memory` with the bytes from `index` on replaced by `data`. */
  function Overwrite(memory: seq<i64>, index: nat, data: seq<Byte>): (r: seq<i64>)
    requires index + |data| <= 8 * |memory|
    ensures |r| == |memory|
    ensures MemBytes(r) == MemBytes(memory)[..index] + data + MemBytes(memory)[index + |data|..]
  {
    var bytes := MemBytes(memory)[..index] + data + MemBytes(memory)[index + |data|..];
    MemBytesOfWords(bytes);
    WordsOf(bytes)
  }

  /** The outcome of a Read system call that did not panic: the count it returns and the memory
      after it. */
  datatype Read = Read(ret: int, memory: seq<i64>)

  /** `sysRead`: read at most `n` (1 to 255) bytes into the data part of the str8 at word `addr`.
      The reader delivers `input` (never more than asked) and reports whether it failed. The data
      bytes land in memory in every case; a failure returns -1, an empty read returns 0, otherwise
      the length byte is set to the count read and the count is returned. Nothing else changes. */
  function SysRead(memory: seq<i64>, addr: int, n: int, input: seq<Byte>, failed: bool): (r: Result<Read, Str8Error>)
    requires |input| <= n
    ensures r.Err? <==> n <= 0 || n > 255 || addr < 0 || 8 * addr + 1 + n > 8 * |memory|
    ensures r.Ok? ==> r.value.ret == (if failed then -1 else |input|)
    ensures r.Ok? ==>
              && |r.value.memory| == |memory|
              && var lengthByte := if r.value.ret > 0 then |input| else MemBytes(memory)[8 * addr];
                 MemBytes(r.value.memory)
                 == MemBytes(memory)[..8 * addr] + [lengthByte] + input + MemBytes(memory)[8 * addr + 1 + |input|..]
  {
    if n <= 0 || n > 255 then Err(InvalidReadSize(n))
    else if |memory| == 0 || addr < 0 || 8 * addr + 1 + n > 8 * |memory| then Err(OutOfBounds(8 * addr + n))
    else Ok(ReadInto(memory, 8 * addr, input, failed))
  }

  /** The Read of `input` into the str8 at byte `i`, once its size and place are known good. */
  function ReadInto(memory: seq<i64>, i: nat, input: seq<Byte>, failed: bool): (r: Read)
    requires |input| <= 255 && i + 1 + |input| <= 8 * |memory|
    ensures r.ret == (if failed then -1 else |input|)
    ensures |r.memory| == |memory|
    ensures var lengthByte := if r.ret > 0 then |input| else MemBytes(memory)[i];
            MemBytes(r.memory) == MemBytes(memory)[..i] + [lengthByte] + input + MemBytes(memory)[i + 1 + |input|..]
  {
    var filled := Overwrite(memory, i + 1, input);
    ReadFill(memory, i, input);
    if failed then Read(-1, filled)
    else if |input| == 0 then Read(0, filled)
    else
      ReadLength(memory, i, input);
      Read(|input|, Overwrite(filled, i, [|input|]))
  }

  /** The bytes after a Read's data landed: the length byte still as it was. */
  lemma ReadFill(memory: seq<i64>, i: nat, input: seq<Byte>)
    requires i + 1 + |input| <= 8 * |memory|
    ensures var m := MemBytes(memory);
            MemBytes(Overwrite(memory, i + 1, input)) == m[..i] + [m[i]] + input + m[i + 1 + |input|..]
  {
    ReadBytes(MemBytes(memory), i, input, MemBytes(Overwrite(memory, i + 1, input)));
  }

  /** The bytes after a Read's data landed and its length byte was set. */
  lemma ReadLength(memory: seq<i64>, i: nat, input: seq<Byte>)
    requires 1 <= |input| <= 255 && i + 1 + |input| <= 8 * |memory|
    ensures var m := MemBytes(memory);
            MemBytes(Overwrite(Overwrite(memory, i + 1, input), i, [|input|]))
            == m[..i] + [|input|] + input + m[i + 1 + |input|..]
  {
    var filled := Overwrite(memory, i + 1, input);
    var done := Overwrite(filled, i, [|input|]);
    ReadFill(memory, i, input);
    ReadBytesLength(MemBytes(memory), i, input, MemBytes(filled), MemBytes(done));
  }

  lemma ReadBytes(m: seq<Byte>, i: nat, input: seq<Byte>, filled: seq<Byte>)
    requires i + 1 + |input| <= |m| == |filled|
    requires filled == m[..i + 1] + input + m[i + 1 + |input|..]
    ensures filled == m[..i] + [m[i]] + input + m[i + 1 + |input|..]
  {
    assert m[..i + 1] == m[..i] + [m[i]];
  }

  lemma ReadBytesLength(m: seq<Byte>, i: nat, input: seq<Byte>, filled: seq<Byte>, done: seq<Byte>)
    requires 1 <= |input| <= 255
    requires i + 1 + |input| <= |m| == |filled| == |done|
    requires filled == m[..i] + [m[i]] + input + m[i + 1 + |input|..]
    requires done == filled[..i] + [|input|] + filled[i + 1..]
    ensures done == m[..i] + [|input|] + input + m[i + 1 + |input|..]
  {
    assert filled[..i] == m[..i];
    assert filled[i + 1..] == input + m[i + 1 + |input|..];
  }

  lemma BytesImage(bytes: seq<Byte>, index: nat, lengthByte: Byte, data: seq<Byte>)
    requires index + 1 + |data| <= |bytes|
    requires bytes[index .. index + 1 + |data|] == [lengthByte] + data
    requires lengthByte <= |data|
    ensures bytes[index] == lengthByte
    ensures bytes[index + 1 .. index + 1 + lengthByte] == data[..lengthByte]
  {
    var image := bytes[index .. index + 1 + |data|];
    assert bytes[index] == image[0];
    forall j | 0 <= j < lengthByte
      ensures bytes[index + 1 + j] == data[j]
    {
      assert bytes[index + 1 + j] == image[1 + j];
    }
  }

  lemma Str8ImageInBounds(memory: seq<i64>, index: nat, lengthByte: Byte, data: seq<Byte>)
    requires index + 1 + |data| <= 8 * |memory|
    requires MemBytes(memory)[index .. index + 1 + |data|] == [lengthByte] + data
    requires lengthByte <= |data|
    ensures WriteInBounds(memory, index)
    ensures MemBytes(memory)[index] == lengthByte
  {
    BytesImage(MemBytes(memory), index, lengthByte, data);
  }

  /** A str8 whose length byte and data sit at `index` is what Write reads there. */
  lemma Str8AtImage(memory: seq<i64>, index: nat, lengthByte: Byte, data: seq<Byte>)
    requires index + 1 + |data| <= 8 * |memory|
    requires MemBytes(memory)[index .. index + 1 + |data|] == [lengthByte] + data
    requires lengthByte <= |data|
    ensures WriteInBounds(memory, index)
    ensures MemBytes(memory)[index] == lengthByte
    ensures Str8At(memory, index) == data[..lengthByte]
  {
    Str8ImageInBounds(memory, index, lengthByte, data);
    var bytes := MemBytes(memory);
    BytesImage(bytes, index, lengthByte, data);
    Str8AtBytes(memory, index, bytes);
  }

  /** The str8 at `index` read off the memory's bytes. */
  lemma Str8AtBytes(memory: seq<i64>, index: int, bytes: seq<Byte>)
    requires WriteInBounds(memory, index) && bytes == MemBytes(memory)
    ensures Str8At(memory, index) == bytes[index + 1 .. index + 1 + bytes[index]]
  {
  }

  /** The bytes of the middle part of a three-part memory. */
  lemma MemBytesMiddle(before: seq<i64>, ws: seq<i64>, after: seq<i64>)
    ensures MemBytes(before + ws + after)[8 * |before| .. 8 * |before| + 8 * |ws|] == MemBytes(ws)
  {
    MemBytesAppend(before, ws);
    MemBytesAppend(before + ws, after);
    assert MemBytes(before + ws + after) == MemBytes(before) + MemBytes(ws) + MemBytes(after);
  }

  /** What the assembler emits is what Write prints: a str8 of one to 255 bytes, placed anywhere in
      memory, is printed exactly, and the call returns its length when the host takes it all. */
  lemma AsmStr8WriteRoundTrip(host: Host, k: nat, before: seq<i64>, b: seq<Byte>, after: seq<i64>)
    requires 1 <= |b| <= 255
    ensures var memory := before + AsmSerializeStr8(b).value + after;
            var r := WriteStr8(host, k, memory, 8 * |before|);
            && r.Ok?
            && r.value.event == Some(Wrote(b, host(k, b)))
            && (host(k, b) == |b| ==> r.value.ret == |b|)
  {
    var ws := AsmSerializeStr8(b).value;
    var memory := before + ws + after;
    var index := 8 * |before|;
    Str8WordsBytes(|b|, b);
    MemBytesMiddle(before, ws, after);
    assert MemBytes(memory)[index .. index + 1 + |b|] == [|b|] + b by {
      var mid := MemBytes(memory)[index .. index + 8 * |ws|];
      assert mid == MemBytes(ws);
      assert MemBytes(memory)[index .. index + 1 + |b|] == mid[..1 + |b|];
      assert MemBytes(ws)[..1 + |b|] == [|b|] + b;
    }
    Str8AtImage(memory, index, |b|, b);
    assert b[..|b|] == b;
    assert Str8At(memory, index) == b;
  }

  /** The VM package's encoder disagrees with the writers: they read its first byte, the length
      minus one, as the length, so the last data byte is never printed and a one-byte string
      prints nothing at all. */
  lemma CpuStr8DropsLastByte(host: Host, k: nat, b: seq<Byte>)
    requires 1 <= |b| <= 256
    ensures var r := WriteStr8(host, k, CpuSerializeStr8(b).value, 0);
            && r.Ok?
            && (|b| == 1 ==> r.value == Write(0, None))
            && (|b| > 1 ==> r.value.event == Some(Wrote(b[..|b| - 1], host(k, b[..|b| - 1]))))
  {
    var ws := CpuSerializeStr8(b).value;
    Str8WordsBytes(|b| - 1, b);
    assert MemBytes(ws)[0 .. 1 + |b|] == [|b| - 1] + b;
    Str8AtImage(ws, 0, |b| - 1, b);
  }

  /** A Read followed by a Write of the same str8 prints exactly what was read. */
  lemma ReadThenWrite(host: Host, k: nat, memory: seq<i64>, addr: int, n: int, input: seq<Byte>)
    requires 1 <= |input| <= n <= 255
    requires 0 <= addr && 8 * addr + 1 + n <= 8 * |memory|
    ensures var r := SysRead(memory, addr, n, input, false);
            && r.Ok? && r.value.ret == |input|
            && WriteStr8(host, k, r.value.memory, 8 * addr).Ok?
            && WriteStr8(host, k, r.value.memory, 8 * addr).value.event == Some(Wrote(input, host(k, input)))
  {
    var r := SysRead(memory, addr, n, input, false);
    var i := 8 * addr;
    assert MemBytes(r.value.memory)[i .. i + 1 + |input|] == [|input|] + input;
    Str8AtImage(r.value.memory, i, |input|, input);
  }
}
