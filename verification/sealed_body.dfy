/**
 * The sealed body variants that `asBytes` and `asFlow` dispatch on
 * (`EmptyBody`, `ByteArrayBody`, `FlowBody`). Their declarations are not
 * part of this model; only their shape is, as the dispatch uses it. A
 * `FlowBody` is the finite sequence of chunks its flow emits.
 */
module SealedBody {
  import opened Chunks

  datatype Body =
    | EmptyBody
    | ByteArrayBody(value: Chunk)
    | FlowBody(chunks: seq<Chunk>)

}
