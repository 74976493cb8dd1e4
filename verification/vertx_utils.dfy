/**
 * The second copy of the body helpers, in `io.kvarto.http.common`
 * (common/VertxUtils.kt). The code is the same dispatch as `Utils`; this
 * module states it from the chunk view: `asBytes` is the concatenation of
 * what `asFlow` yields whenever it fits the buffer, and the two copies
 * agree on every body.
 */
module VertxUtils {
  import opened Wrappers
  import opened Throwables
  import opened Chunks
  import opened SealedBody
  import Utils

  /** `Body.asFlow()`. */
  function AsFlow(b: Body): (r: seq<Chunk>)
    ensures Flatten(r) == (match b
                           case EmptyBody => []
                           case ByteArrayBody(v) => v
                           case FlowBody(cs) => Flatten(cs))
    ensures b.ByteArrayBody? ==> |r| == 1
    ensures b.EmptyBody? ==> |r| == 0
  {
    match b
    case EmptyBody => []
    case ByteArrayBody(v) =>
      FlattenSingleton(v);
      [v]
    case FlowBody(cs) => cs
  }

  /** `Body.asBytes()`: fails only on a flow larger than the buffer, otherwise the bytes `asFlow` yields. */
  function AsBytes(b: Body): (r: Result<seq<Byte>, Throwable>)
    ensures r.Failure? <==> b.FlowBody? && TotalSize(b.chunks) > BufferCapacity
    ensures r.Failure? ==> r.error == BufferOverflowException
    ensures r.Success? ==> r.value == Flatten(AsFlow(b))
  {
    match b
    case EmptyBody => Success([])
    case ByteArrayBody(v) => Success(v)
    case FlowBody(cs) => DrainIntoBuffer(cs)
  }

  /** `Body.asString(charset)`. */
  function AsString(b: Body, decode: seq<Byte> -> string): (r: Result<string, Throwable>)
    ensures r.Failure? <==> b.FlowBody? && TotalSize(b.chunks) > BufferCapacity
    ensures r.Success? ==> r.value == decode(Flatten(AsFlow(b)))
  {
    AsBytes(b).Map(decode)
  }

  /** Both copies of the helpers compute the same thing on every body. */
  lemma CopiesAgree(b: Body, decode: seq<Byte> -> string)
    ensures AsBytes(b) == Utils.AsBytes(b)
    ensures AsFlow(b) == Utils.AsFlow(b)
    ensures AsString(b, decode) == Utils.AsString(b, decode)
  {
  }

  /** A byte-array body is returned whole by `asBytes`, even past the buffer's capacity. */
  lemma ByteArrayBodyIsNotCapped(v: Chunk)
    requires |v| > BufferCapacity
    ensures AsBytes(ByteArrayBody(v)) == Success(v)
  {
    FlattenSingleton(v);
  }
}
