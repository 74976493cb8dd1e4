/**
 * `io.kvarto.http.common.Body` (common/Body.kt): a body is the flow of byte
 * chunks its `content()` emits. The companion's `EMPTY` and the three
 * `Body(...)` constructors all wrap a flow; the optional content length of
 * `FlowBodyImpl` is not part of this model.
 */
module CommonBody {
  import opened Chunks

  datatype Body = Body(content: seq<Chunk>)

  /** `Body.EMPTY`. */
  const Empty: Body := Body([])

  /** `Body(string)`: one chunk, the UTF-8 encoding of the string. */
  function FromString(s: string): (r: Body)
    ensures |r.content| == 1 && r.content[0] == Utf8Encode(s)
    ensures IsAscii(s) ==> |Flatten(r.content)| == |s|
  {
    FlattenSingleton(Utf8Encode(s));
    assert IsAscii(s) ==> |Utf8Encode(s)| == |s| by {
      if IsAscii(s) {
        Utf8EncodeAscii(s);
      }
    }
    Body([Utf8Encode(s)])
  }

  /** `Body(bytes)`: one chunk, the bytes themselves. */
  function FromBytes(bytes: Chunk): (r: Body)
    ensures |r.content| == 1 && Flatten(r.content) == bytes
  {
    FlattenSingleton(bytes);
    Body([bytes])
  }

  /** `Body(flow)`: the flow itself. */
  function FromFlow(chunks: seq<Chunk>): (r: Body)
    ensures r.content == chunks
  {
    Body(chunks)
  }

  /** Every body is the `Body(flow)` of its own content, and `EMPTY` emits nothing. */
  lemma FromFlowOfContent(b: Body)
    ensures FromFlow(b.content) == b
    ensures Flatten(Empty.content) == [] && TotalSize(Empty.content) == 0
  {
  }

  /** `Body(string)` of ASCII text carries bytes that decode back to the text. */
  lemma FromStringRoundTrip(s: string)
    requires IsAscii(s)
    ensures AsciiDecode(Flatten(FromString(s).content)) == s
  {
    FlattenSingleton(Utf8Encode(s));
    AsciiRoundTrip(s);
  }
}
