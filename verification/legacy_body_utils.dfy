/**
 * The legacy body helpers of package `io.kvarto.http` (http/Utils.kt):
 * `asBytes` collects `content()` into one 4096-byte buffer whatever the
 * body, so a single chunk larger than the buffer fails too, and
 * `asString` decodes those bytes.
 */
module LegacyBodyUtils {
  import opened Wrappers
  import opened Throwables
  import opened Chunks
  import opened Domain

  /** `Body.asBytes()`. */
  function AsBytes(b: Body): (r: Result<seq<Byte>, Throwable>)
    ensures r.Success? <==> TotalSize(b.content) <= BufferCapacity
    ensures r.Success? ==> r.value == Flatten(b.content)
    ensures r.Failure? ==> r.error == BufferOverflowException
  {
    DrainIntoBuffer(b.content)
  }

  /** `Body.asString(charset)`. */
  function AsString(b: Body, decode: seq<Byte> -> string): (r: Result<string, Throwable>)
    ensures r.Success? <==> TotalSize(b.content) <= BufferCapacity
    ensures r.Success? ==> r.value == decode(Flatten(b.content))
  {
    AsBytes(b).Map(decode)
  }

  /** The empty body reads as no bytes; a byte body reads as its bytes exactly when they fit the buffer. */
  lemma AsBytesOfConstructors(bytes: Chunk)
    ensures AsBytes(EmptyBody) == Success([])
    ensures AsBytes(BodyOfBytes(bytes)).Success? <==> |bytes| <= BufferCapacity
    ensures AsBytes(BodyOfBytes(bytes)).Success? ==> AsBytes(BodyOfBytes(bytes)).value == bytes
  {
    FlattenSingleton(bytes);
  }

  /** An ASCII string body of at most 4096 characters reads back as the string. */
  lemma AsStringOfAsciiString(s: string)
    requires IsAscii(s) && |s| <= BufferCapacity
    ensures AsString(BodyOfString(s), AsciiDecode) == Success(s)
  {
    Utf8EncodeAscii(s);
    FlattenSingleton(Utf8Encode(s));
    AsciiRoundTrip(s);
  }
}
