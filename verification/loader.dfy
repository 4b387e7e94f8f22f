/** The program file format: the eight-byte header `\x01GROL VM` followed by the program words in
    little-endian byte order. Both loaders are modelled as pure functions of the file's bytes; the
    file handling around them is not part of the model. */
module Loader {
  import opened Base
  import opened Int64
  import opened Bytes

  /** A version byte, then the ASCII text "GROL VM". */
  const HEADER: seq<Byte> := [0x01, 0x47, 0x52, 0x4F, 0x4C, 0x20, 0x56, 0x4D]

  const HEADER_SIZE: nat := 8

  datatype LoadError =
    | TooShort(size: nat)
    | BadHeader(found: seq<Byte>)
    | PartialWord(extra: nat)

  /** A file that starts with the header. */
  predicate HasHeader(file: seq<Byte>)
  {
    |file| >= HEADER_SIZE && file[..HEADER_SIZE] == HEADER
  }

  /** The words a file holds after its header, whole words only. */
  function Body(file: seq<Byte>): seq<Byte>
    requires |file| >= HEADER_SIZE
  {
    var n := (|file| - HEADER_SIZE) / 8;
    file[HEADER_SIZE .. HEADER_SIZE + 8 * n]
  }

  /** The C loader: the word count is the size after the header divided by 8, so a trailing partial
      word is never read. A file shorter than the header fails (the header read comes up short). */
  function LoadC(file: seq<Byte>): (r: Result<seq<i64>, LoadError>)
    ensures r.Ok? <==> HasHeader(file)
    ensures r.Ok? ==> |r.value| == (|file| - HEADER_SIZE) / 8
    ensures r.Ok? ==> HEADER + MemBytes(r.value) == file[..HEADER_SIZE + 8 * |r.value|]
  {
    if |file| < HEADER_SIZE then Err(TooShort(|file|))
    else if file[..HEADER_SIZE] != HEADER then Err(BadHeader(file[..HEADER_SIZE]))
    else
      var body := Body(file);
      MemBytesOfWords(body);
      assert file[..HEADER_SIZE + |body|] == file[..HEADER_SIZE] + body;
      Ok(WordsOf(body))
  }

  /** The Go loader: words are read until end of file, and end of file in the middle of a word is
      an error. */
  function LoadGo(file: seq<Byte>): (r: Result<seq<i64>, LoadError>)
    ensures r.Ok? <==> HasHeader(file) && (|file| - HEADER_SIZE) % 8 == 0
    ensures r.Ok? ==> HEADER + MemBytes(r.value) == file
  {
    if |file| < HEADER_SIZE then Err(TooShort(|file|))
    else if file[..HEADER_SIZE] != HEADER then Err(BadHeader(file[..HEADER_SIZE]))
    else if (|file| - HEADER_SIZE) % 8 != 0 then Err(PartialWord((|file| - HEADER_SIZE) % 8))
    else
      var body := file[HEADER_SIZE..];
      MemBytesOfWords(body);
      assert file == file[..HEADER_SIZE] + body;
      Ok(WordsOf(body))
  }

  /** The file the assembler writes for a program. */
  function Image(program: seq<i64>): (file: seq<Byte>)
    ensures |file| == HEADER_SIZE + 8 * |program|
  {
    HEADER + MemBytes(program)
  }

  /** Both loaders read back exactly the program that was written. */
  lemma LoadImage(program: seq<i64>)
    ensures LoadC(Image(program)) == Ok(program)
    ensures LoadGo(Image(program)) == Ok(program)
  {
    var file := Image(program);
    assert file[..HEADER_SIZE] == HEADER;
    assert file[HEADER_SIZE..] == MemBytes(program);
    WordsOfMemBytes(program);
    assert Body(file) == MemBytes(program);
  }

  /** Trailing bytes short of a word: C ignores them, Go rejects the file. */
  lemma TrailingBytes(program: seq<i64>, extra: seq<Byte>)
    requires 0 < |extra| < 8
    ensures LoadC(Image(program) + extra) == Ok(program)
    ensures LoadGo(Image(program) + extra) == Err(PartialWord(|extra|))
  {
    var file := Image(program) + extra;
    assert file[..HEADER_SIZE] == HEADER;
    assert Body(file) == MemBytes(program);
    WordsOfMemBytes(program);
  }

  /** Whenever the Go loader accepts a file, the C loader reads the same words; the C loader
      accepts strictly more files. */
  lemma LoadersAgree(file: seq<Byte>)
    ensures LoadGo(file).Ok? ==> LoadC(file) == LoadGo(file)
    ensures LoadGo(file).Err? && LoadC(file).Ok? <==> HasHeader(file) && (|file| - HEADER_SIZE) % 8 != 0
  {
    if LoadGo(file).Ok? {
      assert Body(file) == file[HEADER_SIZE..];
    }
  }

  /** A file without the header is rejected by both, whatever follows it. */
  lemma HeaderRequired(file: seq<Byte>)
    requires |file| >= HEADER_SIZE && file[..HEADER_SIZE] != HEADER
    ensures LoadC(file) == Err(BadHeader(file[..HEADER_SIZE]))
    ensures LoadGo(file) == Err(BadHeader(file[..HEADER_SIZE]))
  {}
}
