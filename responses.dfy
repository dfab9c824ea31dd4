/** The response builder of Response.php: a status code, an ordered header table
    and a body, changed in place by fluent setters, and written out by `send`.
    What `send` writes goes to an `Output`, which stands for the PHP process's
    output (the status line, the header lines, the echoed body) and records
    whether the process has exited. */
module Responses {
  import opened Wrappers

  datatype Header = Header(name: string, value: string)

  /** The three fields of a Response. */
  datatype ResponseState = ResponseState(status: int, headers: seq<Header>, content: string)

  /** A fresh Response: status 200, no headers, empty content. */
  const Initial := ResponseState(200, [], "")

  /** What one `send` writes: the status, one `name: value` line per header in
      table order, then the content. */
  datatype Emission = Emission(status: int, headerLines: seq<string>, body: string)

  // ---------------------------------------------------------------------------
  // The header table: a PHP array keyed by header name.

  function HeaderNames(hs: seq<Header>): (names: seq<string>) {
    if hs == [] then [] else [hs[0].name] + HeaderNames(hs[1..])
  }

  /** A PHP array never holds a key twice. */
  predicate UniqueNames(hs: seq<Header>) {
    forall i, j :: 0 <= i < j < |hs| ==> hs[i].name != hs[j].name
  }

  /** `$headers[$name] ?? null`: a value found is one stored under that name. */
  function Lookup(hs: seq<Header>, name: string): (r: Option<string>)
    ensures r.Some? ==> Header(name, r.value) in hs
  {
    if hs == [] then None
    else if hs[0].name == name then Some(hs[0].value)
    else Lookup(hs[1..], name)
  }

  /** `$headers[$name] = $value`: an existing entry keeps its place and takes the
      new value; a new name goes at the end. Either way the entry is in the
      table, every entry for another name is kept, and nothing else is added. */
  function Put(hs: seq<Header>, name: string, value: string): (r: seq<Header>)
    ensures Header(name, value) in r
    ensures forall h :: h in hs && h.name != name ==> h in r
    ensures forall h :: h in r ==> h == Header(name, value) || h in hs
  {
    if hs == [] then [Header(name, value)]
    else if hs[0].name == name then [Header(name, value)] + hs[1..]
    else [hs[0]] + Put(hs[1..], name, value)
  }

  lemma {:induction false} HeaderNamesAt(hs: seq<Header>)
    ensures |HeaderNames(hs)| == |hs|
    ensures forall i :: 0 <= i < |hs| ==> HeaderNames(hs)[i] == hs[i].name
  {
    if hs != [] {
      HeaderNamesAt(hs[1..]);
    }
  }

  /** Last write wins for the name written, and every other name reads as before. */
  lemma {:induction false} PutLookup(hs: seq<Header>, name: string, value: string, other: string)
    ensures Lookup(Put(hs, name, value), other) == if other == name then Some(value) else Lookup(hs, other)
  {
    if hs != [] && hs[0].name != name {
      PutLookup(hs[1..], name, value, other);
    }
  }

  /** In a table without repeated names, the entry for a name is what `Lookup` finds. */
  lemma {:induction false} LookupAt(hs: seq<Header>, i: nat)
    requires UniqueNames(hs) && i < |hs|
    ensures Lookup(hs, hs[i].name) == Some(hs[i].value)
  {
    if i > 0 {
      LookupAt(hs[1..], i - 1);
    }
  }

  /** A name that is not in the table reads as absent. */
  lemma {:induction false} LookupMissing(hs: seq<Header>, name: string)
    requires name !in HeaderNames(hs)
    ensures Lookup(hs, name) == None
  {
    if hs != [] {
      assert HeaderNames(hs) == [hs[0].name] + HeaderNames(hs[1..]);
      LookupMissing(hs[1..], name);
    }
  }

  /** A new name goes at the end of the table. */
  lemma {:induction false} PutAppends(hs: seq<Header>, name: string, value: string)
    requires name !in HeaderNames(hs)
    ensures Put(hs, name, value) == hs + [Header(name, value)]
  {
    if hs != [] {
      assert HeaderNames(hs) == [hs[0].name] + HeaderNames(hs[1..]);
      PutAppends(hs[1..], name, value);
    }
  }

  /** An existing name keeps its place and only its value changes. */
  lemma {:induction false} PutInPlace(hs: seq<Header>, name: string, value: string)
    requires UniqueNames(hs) && name in HeaderNames(hs)
    ensures |Put(hs, name, value)| == |hs|
    ensures forall i :: 0 <= i < |hs| ==>
      Put(hs, name, value)[i] == if hs[i].name == name then Header(name, value) else hs[i]
  {
    assert HeaderNames(hs) == [hs[0].name] + HeaderNames(hs[1..]);
    if hs[0].name != name {
      PutInPlace(hs[1..], name, value);
    }
  }

  /** Writing a header never makes a name appear twice. */
  lemma PutUnique(hs: seq<Header>, name: string, value: string)
    requires UniqueNames(hs)
    ensures UniqueNames(Put(hs, name, value))
  {
    HeaderNamesAt(hs);
    if name in HeaderNames(hs) {
      PutInPlace(hs, name, value);
    } else {
      PutAppends(hs, name, value);
    }
  }

  // ---------------------------------------------------------------------------
  // State transitions, shared by the Response methods and by the handlers that
  // call them.

  function WithStatus(st: ResponseState, code: int): (st1: ResponseState) {
    st.(status := code)
  }

  function WithHeader(st: ResponseState, name: string, value: string): (st1: ResponseState) {
    st.(headers := Put(st.headers, name, value))
  }

  function WithContent(st: ResponseState, body: string): (st1: ResponseState) {
    st.(content := body)
  }

  /** `json($data, $statusCode)`, given the encoding of `$data`. */
  function AsJson(st: ResponseState, encoded: string, code: int): (st1: ResponseState) {
    WithContent(WithHeader(WithStatus(st, code), "Content-Type", "application/json"), encoded)
  }

  /** The state `redirect($url, $statusCode)` sends. */
  function Redirected(st: ResponseState, url: string, code: int): (st1: ResponseState) {
    WithHeader(WithStatus(st, code), "Location", url)
  }

  /** `json` sets the status, the JSON content type and the content, and leaves
      every other header as it was. */
  lemma JsonState(st: ResponseState, encoded: string, code: int, other: string)
    ensures AsJson(st, encoded, code).status == code && AsJson(st, encoded, code).content == encoded
    ensures Lookup(AsJson(st, encoded, code).headers, other) ==
      if other == "Content-Type" then Some("application/json") else Lookup(st.headers, other)
  {
    PutLookup(st.headers, "Content-Type", "application/json", other);
  }

  /** `redirect` sets the status and `Location`, keeps the content and every other header. */
  lemma RedirectState(st: ResponseState, url: string, code: int, other: string)
    ensures Redirected(st, url, code).status == code && Redirected(st, url, code).content == st.content
    ensures Lookup(Redirected(st, url, code).headers, other) ==
      if other == "Location" then Some(url) else Lookup(st.headers, other)
  {
    PutLookup(st.headers, "Location", url, other);
  }

  // ---------------------------------------------------------------------------
  // Emission.

  function HeaderLine(h: Header): (line: string) {
    h.name + ": " + h.value
  }

  /** The header lines `send` writes, one per header. */
  function HeaderLines(hs: seq<Header>): (r: seq<string>)
    ensures |r| == |hs|
  {
    if hs == [] then [] else HeaderLines(hs[..|hs| - 1]) + [HeaderLine(hs[|hs| - 1])]
  }

  function Snapshot(st: ResponseState): (e: Emission) {
    Emission(st.status, HeaderLines(st.headers), st.content)
  }

  /** `send` writes every header, once each, in table order. */
  lemma {:induction false} HeaderLinesAt(hs: seq<Header>)
    ensures |HeaderLines(hs)| == |hs|
    ensures forall i :: 0 <= i < |hs| ==> HeaderLines(hs)[i] == hs[i].name + ": " + hs[i].value
  {
    if hs != [] {
      HeaderLinesAt(hs[..|hs| - 1]);
    }
  }

  /** The process's output: what has been sent, and whether `exit()` was called. */
  class Output {
    var log: seq<Emission>
    var exited: bool

    constructor ()
      ensures log == [] && !exited
    {
      log := [];
      exited := false;
    }
  }

  class Response {
    var statusCode: int
    var headers: seq<Header>
    var content: string

    ghost predicate Valid()
      reads this
    {
      UniqueNames(headers)
    }

    function Value(): (v: ResponseState)
      reads this
    {
      ResponseState(statusCode, headers, content)
    }

    constructor ()
      ensures Valid() && Value() == Initial
    {
      statusCode := 200;
      headers := [];
      content := "";
    }

    method SetStatusCode(code: int) returns (self: Response)
      modifies this
      ensures self == this
      ensures Value() == WithStatus(old(Value()), code)
      ensures statusCode == code && headers == old(headers) && content == old(content)
    {
      statusCode := code;
      self := this;
    }

    method GetStatusCode() returns (code: int)
      ensures code == statusCode
    {
      code := statusCode;
    }

    method SetHeader(name: string, value: string) returns (self: Response)
      requires Valid()
      modifies this
      ensures Valid() && self == this
      ensures Value() == WithHeader(old(Value()), name, value)
      ensures statusCode == old(statusCode) && content == old(content)
    {
      PutUnique(headers, name, value);
      headers := Put(headers, name, value);
      self := this;
    }

    /** `getHeader($name, $default)`: the value stored under `name`, else `default`. */
    method GetHeader(name: string, default: Option<string> := None) returns (r: Option<string>)
      requires Valid()
      ensures forall i :: 0 <= i < |headers| && headers[i].name == name ==> r == Some(headers[i].value)
      ensures name !in HeaderNames(headers) ==> r == default
    {
      r := Lookup(headers, name);
      if r.None? {
        r := default;
      }
      forall i | 0 <= i < |headers| && headers[i].name == name ensures r == Some(headers[i].value) {
        LookupAt(headers, i);
      }
      if name !in HeaderNames(headers) {
        LookupMissing(headers, name);
      }
    }

    method SetContent(body: string) returns (self: Response)
      modifies this
      ensures self == this
      ensures Value() == WithContent(old(Value()), body)
      ensures statusCode == old(statusCode) && headers == old(headers) && content == body
    {
      content := body;
      self := this;
    }

    method GetContent() returns (body: string)
      ensures body == content
    {
      body := content;
    }

    /** Writes the status, each header line and the content; the response itself
        is left as it was. */
    method Send(out: Output)
      modifies out
      ensures out.log == old(out.log) + [Snapshot(Value())]
      ensures out.exited == old(out.exited)
    {
      var lines: seq<string> := [];
      var i := 0;
      while i < |headers|
        invariant 0 <= i <= |headers|
        invariant lines == HeaderLines(headers[..i])
      {
        assert headers[..i + 1][..i] == headers[..i];
        lines := lines + [headers[i].name + ": " + headers[i].value];
        i := i + 1;
      }
      assert headers[..i] == headers;
      out.log := out.log + [Emission(statusCode, lines, content)];
    }

    /** `json($data, $statusCode = 200)`; `encode` stands for `json_encode`. */
    method Json<D>(data: D, encode: D -> string, code: int := 200) returns (self: Response)
      requires Valid()
      modifies this
      ensures Valid() && self == this
      ensures Value() == AsJson(old(Value()), encode(data), code)
    {
      self := SetStatusCode(code);
      self := SetHeader("Content-Type", "application/json");
      self := SetContent(encode(data));
    }

    /** `redirect($url, $statusCode = 302)`: sets the status and `Location`,
        sends once, and ends the process. */
    method Redirect(url: string, out: Output, code: int := 302)
      requires Valid()
      modifies this, out
      ensures Valid()
      ensures Value() == Redirected(old(Value()), url, code)
      ensures out.log == old(out.log) + [Snapshot(Value())]
      ensures out.exited
    {
      var self := SetStatusCode(code);
      self := SetHeader("Location", url);
      Send(out);
      out.exited := true;
    }
  }
}
