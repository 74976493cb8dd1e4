/**
 * The body helpers of `io.kvarto.utils` (utils/Utils.kt): `asBytes`,
 * `asFlow` and `asString` over the sealed body variants. Only a
 * `FlowBody` goes through the 4096-byte buffer; a byte-array body is
 * returned as it is, whatever its length.
 */
module Utils {
  import opened Wrappers
  import opened Throwables
  import opened Chunks
  import opened SealedBody

  /** `Body.asBytes()`. */
  function AsBytes(b: Body): (r: Result<seq<Byte>, Throwable>)
    ensures b.EmptyBody? ==> r == Success([])
    ensures b.ByteArrayBody? ==> r == Success(b.value)
    ensures b.FlowBody? ==> (r.Success? <==> TotalSize(b.chunks) <= BufferCapacity)
    ensures b.FlowBody? && r.Success? ==> r.value == Flatten(b.chunks) && |r.value| == TotalSize(b.chunks)
    ensures r.Failure? ==> b.FlowBody? && r.error == BufferOverflowException
  {
    match b
    case EmptyBody => Success([])
    case ByteArrayBody(v) => Success(v)
    case FlowBody(cs) => DrainIntoBuffer(cs)
  }

  /** `Body.asFlow()`: the chunks a consumer of the body receives. */
  function AsFlow(b: Body): (r: seq<Chunk>)
    ensures b.EmptyBody? ==> r == []
    ensures b.ByteArrayBody? ==> r == [b.value]
    ensures b.FlowBody? ==> r == b.chunks
  {
    match b
    case EmptyBody => []
    case ByteArrayBody(v) => [v]
    case FlowBody(cs) => cs
  }

  /** `Body.asString(charset)`: the charset's decoding of `asBytes()`. */
  function AsString(b: Body, decode: seq<Byte> -> string): (r: Result<string, Throwable>)
    ensures r.Success? <==> AsBytes(b).Success?
    ensures r.Success? ==> r.value == decode(AsBytes(b).value)
  {
    AsBytes(b).Map(decode)
  }

  /**
   * Whenever `asBytes` succeeds, it is the concatenation of the chunks
   * `asFlow` yields: the two views of a body agree.
   */
  lemma AsBytesFlattensAsFlow(b: Body)
    requires AsBytes(b).Success?
    ensures AsBytes(b).value == Flatten(AsFlow(b))
  {
    FlattenSingleton([]);
    if b.ByteArrayBody? {
      FlattenSingleton(b.value);
    }
  }

  /** `asBytes` fails only on a flow body larger than the buffer. */
  lemma AsBytesFailsOnlyWhenFlowOverflows(b: Body)
    ensures AsBytes(b).Failure? <==> b.FlowBody? && TotalSize(b.chunks) > BufferCapacity
  {
  }

  /** A flow of the chunks [65, 66] and [67] collects to the bytes 65, 66, 67 ("ABC"). */
  lemma AsBytesFlowExample()
    ensures AsBytes(FlowBody([[65, 66], [67]])) == Success([65, 66, 67])
  {
    var cs: seq<Chunk> := [[65, 66], [67]];
    assert cs == [[65, 66]] + [[67]];
    FlattenAppend([[65, 66]], [[67]]);
    FlattenSingleton([65, 66]);
    FlattenSingleton([67]);
    FlattenLength(cs);
    assert Flatten(cs) == [65, 66, 67];
    assert TotalSize(cs) == 3;
    var r := AsBytes(FlowBody(cs));
    assert r.Success?;
    assert r.value == [65, 66, 67];
  }

  /** The bytes 65, 66, 67 read as "ABC" under a decoder that agrees with ASCII. */
  lemma AsStringAsciiExample()
    ensures AsString(ByteArrayBody([65, 66, 67]), AsciiDecode) == Success("ABC")
  {
    var r := AsciiDecode([65, 66, 67]);
    assert r[0] == 'A' && r[1] == 'B' && r[2] == 'C';
    assert r == "ABC";
    assert AsBytes(ByteArrayBody([65, 66, 67])) == Success([65, 66, 67]);
  }
}
