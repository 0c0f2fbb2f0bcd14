/**
 * The forwarding handler of the Elasticsearch plugin
 * (plugins/elasticsearch/handlers.go): the inbound headers are filtered before
 * the request goes to the backend, and the backend's answer (or its error) is
 * relayed to the caller's response writer.
 *
 * The backend client, the body reader and util.WriteBackError lie outside
 * this model: what they produce is passed in as values.
 */
module Handlers {
  import opened Wrappers

  newtype byte = x: int | 0 <= x < 256

  /** http.Header: a canonical header name to its values. */
  type Header = map<string, seq<string>>

  /** Every header present has at least one value (so `v[0]` exists). */
  predicate HasValues(h: Header) {
    forall k :: k in h ==> |h[k]| > 0
  }

  /**
   * Copies headers one name at a time: every
   * header of `h` but `drop` is set on `target` with its first value,
   * replacing what `target` held under that name; the other names of
   * `target` keep their values.
   */
  method SetFirstValues(target: Header, h: Header, drop: string) returns (out: Header)
    requires HasValues(h)
    ensures out.Keys == target.Keys + (h.Keys - {drop})
    ensures forall k :: k in out ==> out[k] == if k in h && k != drop then [h[k][0]] else target[k]
  {
    out := target;
    var rest := h.Keys;
    while rest != {}
      invariant rest <= h.Keys
      invariant out.Keys == target.Keys + ((h.Keys - rest) - {drop})
      invariant forall k :: k in out ==> out[k] == if k in h && k !in rest && k != drop then [h[k][0]] else target[k]
      decreases rest
    {
      var k :| k in rest;
      if k != drop {
        out := out[k := [h[k][0]]];
      }
      rest := rest - {k};
    }
  }

  /** The inbound request as the handler sees it. */
  datatype Request = Request(verb: string, path: string, query: map<string, seq<string>>, header: Header)

  /** es7.PerformRequestOptions: what is handed to the backend client. */
  datatype PerformRequestOptions = PerformRequestOptions(
    verb: string, path: string, params: map<string, seq<string>>, headers: Header, body: seq<byte>)

  /** A successful answer of the backend. */
  datatype BackendResponse = BackendResponse(status: int, header: Header, body: seq<byte>)

  /**
   * The outbound headers: every inbound header except `Content-Type`, each
   * with its first value only.
   */
  method FilterRequestHeaders(inbound: Header) returns (headers: Header)
    requires HasValues(inbound)
    ensures headers.Keys == inbound.Keys - {"Content-Type"}
    ensures forall k :: k in headers ==> headers[k] == [inbound[k][0]]
  {
    headers := SetFirstValues(map[], inbound, "Content-Type");
  }

  /**
   * The options of the backend call: the request's method, URL path and
   * query unchanged, the filtered headers and the body that was read
   * (`body`, whatever ioutil.ReadAll returned, even after a read error).
   */
  method ForwardRequest(r: Request, body: seq<byte>) returns (o: PerformRequestOptions)
    requires HasValues(r.header)
    ensures o.verb == r.verb && o.path == r.path && o.params == r.query && o.body == body
    ensures o.headers.Keys == r.header.Keys - {"Content-Type"}
    ensures "Content-Type" !in o.headers
    ensures forall k :: k in o.headers ==> o.headers[k] == [r.header[k][0]]
  {
    var headers := FilterRequestHeaders(r.header);
    o := PerformRequestOptions(r.verb, r.path, r.query, headers, body);
  }

  /**
   * http.ResponseWriter as the handler uses it: a header map, the status once
   * written, and the body bytes written so far.
   */
  class ResponseWriter {
    var header: Header
    var status: Option<int>
    var body: seq<byte>

    /** Nothing is written before the status. */
    predicate Valid()
      reads this
    {
      status.None? ==> body == []
    }

    constructor ()
      ensures header == map[] && status == None && body == []
      ensures Valid()
    {
      header := map[];
      status := None;
      body := [];
    }

    /** Header().Set(k, v): `k` now has the single value `v`. */
    method SetHeader(k: string, v: string)
      modifies this
      requires Valid()
      ensures Valid()
      ensures header == old(header)[k := [v]]
      ensures status == old(status) && body == old(body)
    {
      header := header[k := [v]];
    }

    /** WriteHeader: the first status written is kept; later calls are ignored. */
    method WriteHeader(code: int)
      modifies this
      requires Valid()
      ensures Valid()
      ensures status == if old(status).None? then Some(code) else old(status)
      ensures header == old(header) && body == old(body)
    {
      if status.None? {
        status := Some(code);
      }
    }

    /** Write: appends to the body, writing status 200 first if none was written. */
    method Write(data: seq<byte>)
      modifies this
      requires Valid()
      ensures Valid()
      ensures status == if old(status).None? then Some(200) else old(status)
      ensures body == old(body) + data && header == old(header)
    {
      if status.None? {
        status := Some(200);
      }
      body := body + data;
    }
  }

  /**
   * Relays the outcome of the backend call to a writer nothing has been
   * written to. On an error the status is 500 and the body is the error's
   * report (`report(err)`, as util.WriteBackError renders it), with no
   * backend header copied. On success the status and body are the
   * backend's, byte for byte; every backend header but `Content-Length` is
   * set to its first value, the writer's other headers are kept, and
   * `X-Origin` is "ES" even when the backend sent one.
   */
  method Relay(w: ResponseWriter, outcome: Result<BackendResponse, string>, report: string -> seq<byte>)
    requires w.status == None && w.body == []
    requires outcome.Success? ==> HasValues(outcome.value.header)
    modifies w
    ensures w.Valid()
    ensures outcome.Failure? ==>
      w.status == Some(500) && w.body == report(outcome.error) && w.header == old(w.header)
    ensures outcome.Success? ==>
      w.status == Some(outcome.value.status) && w.body == outcome.value.body
    ensures outcome.Success? ==>
      w.header.Keys == old(w.header).Keys + (outcome.value.header.Keys - {"Content-Length"}) + {"X-Origin"}
    ensures outcome.Success? ==> w.header["X-Origin"] == ["ES"]
    ensures outcome.Success? ==> forall k :: k in w.header && k != "X-Origin" ==>
      w.header[k] == if k in outcome.value.header && k != "Content-Length"
        then [outcome.value.header[k][0]] else old(w.header)[k]
  {
    match outcome {
      case Failure(err) =>
        w.WriteHeader(500);
        w.Write(report(err));
      case Success(response) =>
        var header := SetFirstValues(w.header, response.header, "Content-Length");
        w.header := header;
        w.SetHeader("X-Origin", "ES");
        w.WriteHeader(response.status);
        w.Write(response.body);
    }
  }
}
