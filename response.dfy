/**
 * The in-memory store of API responses keyed by request ID
 * (model/response/response.go). The package-level `Response` map is the
 * field `responses` of a store object; a document (`map[string]interface{}`
 * in the source) is any value of type `Doc`.
 */
module Response {
  import opened Wrappers

  /** A lookup in the map: the stored document, or None (nil) when absent. */
  function Lookup<Doc>(m: map<string, Doc>, id: string): (r: Option<Doc>)
    ensures r.Some? <==> id in m
    ensures r.Some? ==> r.value == m[id]
  {
    if id in m then Some(m[id]) else None
  }

  /** The cache of responses, one per request ID. */
  class Store<Doc> {
    var responses: map<string, Doc>

    constructor ()
      ensures responses == map[]
    {
      responses := map[];
    }

    /** GetResponse: the document saved under `id`, or None; the map is not changed. */
    method GetResponse(id: string) returns (r: Option<Doc>)
      ensures r == Lookup(responses, id)
    {
      if id in responses {
        r := Some(responses[id]);
      } else {
        r := None;
      }
    }

    /**
     * SaveResponse: `id` now maps to `d`, replacing any earlier document;
     * every other ID keeps its entry.
     */
    method SaveResponse(id: string, d: Doc)
      modifies this
      ensures responses == old(responses)[id := d]
      ensures Lookup(responses, id) == Some(d)
      ensures forall other :: other != id ==> Lookup(responses, other) == Lookup(old(responses), other)
    {
      responses := responses[id := d];
    }

    /**
     * ClearResponse: `id` no longer has an entry; every other ID keeps its
     * entry, and clearing an absent ID changes nothing.
     */
    method ClearResponse(id: string)
      modifies this
      ensures responses == old(responses) - {id}
      ensures Lookup(responses, id) == None
      ensures forall other :: other != id ==> Lookup(responses, other) == Lookup(old(responses), other)
      ensures id !in old(responses) ==> responses == old(responses)
    {
      responses := responses - {id};
    }
  }
}
