/** The HTTP side of the uploader: request methods, the Content-Range
    header value it sends with every chunk, the requests themselves and
    the client that sends them. The network is not modelled: the client
    appends each request to a log and answers it from a reply oracle. */
module Http {
  import opened Wrappers
  import opened Text

  /** A request method, by its case-sensitive name ("PUT", "POST", or an
      extension method such as "PATCHY"). */
  datatype Method = Method(name: string)

  const Put: Method := Method("PUT")

  /** The characters a method token may contain (`tchar` of RFC 9110,
      section 5.6.2). */
  predicate IsTokenChar(c: char) {
    ('a' <= c <= 'z') || ('A' <= c <= 'Z') || ('0' <= c <= '9') ||
    c in "!#$%&'*+-.^_`|~"
  }

  /** `Method::from_str`: a non-empty token is accepted as the method of
      that exact name; anything else is rejected. */
  function ParseMethod(s: string): (r: Option<Method>)
    ensures r.Some? ==> r.value.name == s && |s| > 0
    ensures r.Some? ==> forall i :: 0 <= i < |s| ==> IsTokenChar(s[i])
    ensures r.None? ==> s == [] || exists i :: 0 <= i < |s| && !IsTokenChar(s[i])
  {
    if |s| > 0 && forall i :: 0 <= i < |s| ==> IsTokenChar(s[i]) then Some(Method(s)) else None
  }

  /** The three numbers of a `Content-Range: bytes first-last/total`
      header as the uploader fills them in: `last` is the exclusive end of
      the chunk and `total` the end of the uploaded range. */
  datatype ContentRange = ContentRange(first: nat, last: nat, total: nat)

  /** The header value, `bytes {first}-{last}/{total}`. */
  function Format(cr: ContentRange): (h: string)
    ensures |h| > |"bytes "| && h[..|"bytes "|] == "bytes "
  {
    "bytes " + ShowNat(cr.first) + "-" + ShowNat(cr.last) + "/" + ShowNat(cr.total)
  }

  /** Reads the three numbers back out of a header value. */
  function ParseContentRange(h: string): (r: Option<ContentRange>)
    ensures r.Some? ==> |h| > 6 && h[..6] == "bytes "
  {
    if |h| < 6 || h[..6] != "bytes " then None
    else
      var slash := Split(h[6..], '/');
      if |slash| != 2 then None
      else
        var dash := Split(slash[0], '-');
        if |dash| != 2 then None
        else
          match (ParseDecimal(dash[0]), ParseDecimal(dash[1]), ParseDecimal(slash[1]))
          case (Some(a), Some(b), Some(t)) =>
            assert |slash[0]| > 0 by {
              JoinSplit(slash[0], '-');
              assert slash[0] == dash[0] + ['-'] + dash[1];
            }
            JoinSplit(h[6..], '/');
            assert h[6..] == slash[0] + ['/'] + slash[1];
            Some(ContentRange(a, b, t))
          case _ => None
  }

  /** The header value loses nothing: every ContentRange is read back
      from its formatted header. */
  lemma FormatRoundTrip(cr: ContentRange)
    ensures ParseContentRange(Format(cr)) == Some(cr)
  {
    var a, b, t := ShowNat(cr.first), ShowNat(cr.last), ShowNat(cr.total);
    var h := Format(cr);
    assert h[6..] == (a + "-" + b) + "/" + t;
    DigitsHaveNoDash(a);
    DigitsHaveNoDash(b);
    DigitsHaveNoDash(t);
    CountZero(a, '-');
    CountZero(b, '-');
    CountZero(a, '/');
    CountZero(b, '/');
    CountZero(t, '/');
    CountAppend(a, "-", '/');
    CountAppend(a + "-", b, '/');
    CountZero(a + "-" + b, '/');
    SplitJoin([a + "-" + b, t], '/');
    SplitJoin([a, b], '-');
    ParseDecimalShowNat(cr.first);
    ParseDecimalShowNat(cr.last);
    ParseDecimalShowNat(cr.total);
  }

  /** One request as the uploader builds it: method, URL, the
      Content-Range header and the body. */
  datatype Request = Request(verb: Method, url: string, range: ContentRange, body: seq<bv8>) {
    function ContentRangeHeader(): string {
      Format(range)
    }
  }

  /** What sending a request produced: a response with its status code and
      its body text (None when the body could not be read), or a transport
      error. */
  datatype Reply = Response(status: nat, text: Option<string>) | TransportError

  predicate IsOk(reply: Reply) {
    reply.Response? && reply.status == 200
  }

  /** The HTTP client. `log` is every request sent so far, in order; the
      reply to the k-th request (counting from 0) is `network(k)`. */
  class Client {
    const network: nat -> Reply
    var log: seq<Request>

    constructor (network: nat -> Reply)
      ensures this.network == network && log == []
    {
      this.network := network;
      log := [];
    }

    method Send(req: Request) returns (reply: Reply)
      modifies this
      ensures log == old(log) + [req]
      ensures reply == network(|old(log)|)
    {
      reply := network(|log|);
      log := log + [req];
    }
  }
}
