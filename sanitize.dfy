/**
 * The input-sanitising middleware: every string inside the request body, query, parameters and
 * the custom headers (and inside every JSON response) goes through an HTML cleaner that allows
 * no tags and no attributes, and every string the cleaner changes is logged with its path.
 * The cleaner itself is a library; here it is the parameter `clean`.
 *
 * In the application as wired (src/index.ts:34) the middleware is mounted before the JSON body
 * parser (src/index.ts:85), and at application level no route parameters have been matched yet,
 * so in the running app request bodies and parameters reach it empty and are never cleaned; the
 * model states what the middleware does with whatever values it is given.
 */
module SanitizeInput {
  import opened Decimal
  import opened JsonValue

  /** `${path}[${i}]`, the path of an array element. */
  function ElemPath(path: string, i: nat): string {
    path + "[" + NatToString(i) + "]"
  }

  /** `${path}.${key}`, the path of an object member. */
  function KeyPath(path: string, key: string): string {
    path + "." + key
  }

  /** The message logged for a string the cleaner changed. */
  function LogLine(path: string, original: string, sanitized: string): string {
    "[XSS DETECTED] Path: " + path + " | Original: \"" + original + "\" | Sanitized: \"" + sanitized + "\""
  }

  /** The value `sanitize` returns: strings cleaned, arrays and objects rebuilt member by member. */
  function Sanitize(v: Json, path: string, clean: string -> string): (r: Json)
    ensures r.JString? == v.JString? && r.JArray? == v.JArray? && r.JObject? == v.JObject?
    ensures !v.JString? && !v.JArray? && !v.JObject? ==> r == v
    decreases v
  {
    match v
    case JString(s) => JString(clean(s))
    case JArray(elems) =>
      JArray(seq(|elems|, i requires 0 <= i < |elems| => Sanitize(elems[i], ElemPath(path, i), clean)))
    case JObject(fields) =>
      JObject(seq(|fields|, i requires 0 <= i < |fields| =>
                    (fields[i].0, Sanitize(fields[i].1, KeyPath(path, fields[i].0), clean))))
    case _ => v
  }

  /** The concatenation of a sequence of log batches, in order. */
  function Concat(xss: seq<seq<string>>): (r: seq<string>)
    ensures r == [] <==> forall i :: 0 <= i < |xss| ==> xss[i] == []
  {
    if xss == [] then [] else Concat(xss[..|xss| - 1]) + xss[|xss| - 1]
  }

  /** Concatenating one more batch appends it. */
  lemma ConcatSnoc(xss: seq<seq<string>>, i: nat)
    requires i < |xss|
    ensures Concat(xss[..i + 1]) == Concat(xss[..i]) + xss[i]
  {
    assert xss[..i + 1][..i] == xss[..i];
  }

  /** The lines `sanitize` passes to the logger, in the order it visits the strings. */
  function Logs(v: Json, path: string, clean: string -> string): (r: seq<string>)
    ensures v.JString? ==> (r == [] <==> clean(v.s) == v.s)
    ensures !v.JString? && !v.JArray? && !v.JObject? ==> r == []
    decreases v
  {
    match v
    case JString(s) => if clean(s) != s then [LogLine(path, s, clean(s))] else []
    case JArray(elems) =>
      Concat(seq(|elems|, i requires 0 <= i < |elems| => Logs(elems[i], ElemPath(path, i), clean)))
    case JObject(fields) =>
      Concat(seq(|fields|, i requires 0 <= i < |fields| => Logs(fields[i].1, KeyPath(path, fields[i].0), clean)))
    case _ => []
  }

  /**
   * The structure is kept: strings stay strings, arrays keep their length, objects keep exactly
   * their keys in order, and numbers, booleans, null and undefined come back unchanged.
   */
  lemma SanitizeKeepsShape(v: Json, path: string, clean: string -> string)
    ensures var r := Sanitize(v, path, clean);
      && (v.JString? ==> r == JString(clean(v.s)))
      && (v.JArray? <==> r.JArray?)
      && (v.JArray? ==> |r.elems| == |v.elems|)
      && (v.JObject? <==> r.JObject?)
      && (v.JObject? ==> Keys(r.fields) == Keys(v.fields))
      && (!v.JString? && !v.JArray? && !v.JObject? ==> r == v)
  {
    var r := Sanitize(v, path, clean);
    if v.JObject? {
      assert forall i :: 0 <= i < |v.fields| ==> r.fields[i].0 == v.fields[i].0;
    }
  }

  /** Nothing is logged exactly when sanitising changes nothing. */
  lemma {:induction false} LogsIffChanged(v: Json, path: string, clean: string -> string)
    ensures Logs(v, path, clean) == [] <==> Sanitize(v, path, clean) == v
    decreases v
  {
    match v
    case JString(s) =>
    case JArray(elems) =>
      var r := Sanitize(v, path, clean).elems;
      var batches := seq(|elems|, i requires 0 <= i < |elems| => Logs(elems[i], ElemPath(path, i), clean));
      forall i | 0 <= i < |elems|
        ensures batches[i] == [] <==> r[i] == elems[i]
      {
        LogsIffChanged(elems[i], ElemPath(path, i), clean);
      }
      assert Logs(v, path, clean) == Concat(batches);
      if r == elems {
        assert forall i :: 0 <= i < |elems| ==> r[i] == elems[i];
      }
    case JObject(fields) =>
      var r := Sanitize(v, path, clean).fields;
      var batches := seq(|fields|, i requires 0 <= i < |fields| => Logs(fields[i].1, KeyPath(path, fields[i].0), clean));
      forall i | 0 <= i < |fields|
        ensures batches[i] == [] <==> r[i] == fields[i]
      {
        LogsIffChanged(fields[i].1, KeyPath(path, fields[i].0), clean);
      }
      assert Logs(v, path, clean) == Concat(batches);
      if r == fields {
        assert forall i :: 0 <= i < |fields| ==> r[i] == fields[i];
      }
    case _ =>
  }

  /** The path labels only the log: the sanitised value is the same whatever path it starts from. */
  lemma {:induction false} ValueIgnoresPath(v: Json, path: string, path': string, clean: string -> string)
    ensures Sanitize(v, path, clean) == Sanitize(v, path', clean)
    decreases v
  {
    match v
    case JString(s) =>
    case JArray(elems) =>
      forall i | 0 <= i < |elems|
        ensures Sanitize(elems[i], ElemPath(path, i), clean) == Sanitize(elems[i], ElemPath(path', i), clean)
      {
        ValueIgnoresPath(elems[i], ElemPath(path, i), ElemPath(path', i), clean);
      }
    case JObject(fields) =>
      forall i | 0 <= i < |fields|
        ensures Sanitize(fields[i].1, KeyPath(path, fields[i].0), clean)
             == Sanitize(fields[i].1, KeyPath(path', fields[i].0), clean)
      {
        ValueIgnoresPath(fields[i].1, KeyPath(path, fields[i].0), KeyPath(path', fields[i].0), clean);
      }
    case _ =>
  }

  /** With a cleaner whose output is already clean, sanitising twice gives the value of sanitising once. */
  lemma {:induction false} SanitizeIdempotent(v: Json, path: string, path': string, clean: string -> string)
    requires forall s :: clean(clean(s)) == clean(s)
    ensures Sanitize(Sanitize(v, path, clean), path', clean) == Sanitize(v, path, clean)
    decreases v
  {
    var r := Sanitize(v, path, clean);
    match v
    case JString(s) =>
    case JArray(elems) =>
      forall i | 0 <= i < |elems|
        ensures Sanitize(r.elems[i], ElemPath(path', i), clean) == r.elems[i]
      {
        SanitizeIdempotent(elems[i], ElemPath(path, i), ElemPath(path', i), clean);
      }
      assert Sanitize(r, path', clean).elems == r.elems;
    case JObject(fields) =>
      forall i | 0 <= i < |fields|
        ensures Sanitize(r.fields[i].1, KeyPath(path', r.fields[i].0), clean) == r.fields[i].1
      {
        SanitizeIdempotent(fields[i].1, KeyPath(path, fields[i].0), KeyPath(path', fields[i].0), clean);
      }
      assert Sanitize(r, path', clean).fields == r.fields;
    case _ =>
  }

  /** With such a cleaner, a second pass over sanitised data logs nothing. */
  lemma SecondPassLogsNothing(v: Json, path: string, path': string, clean: string -> string)
    requires forall s :: clean(clean(s)) == clean(s)
    ensures Logs(Sanitize(v, path, clean), path', clean) == []
  {
    SanitizeIdempotent(v, path, path', clean);
    LogsIffChanged(Sanitize(v, path, clean), path', clean);
  }

  /** The same two facts for any cleaner, each under the condition that the cleaner is idempotent. */
  lemma IdempotentWhenCleanerIs(v: Json, path: string, path': string, clean: string -> string)
    ensures (forall s :: clean(clean(s)) == clean(s)) ==>
      Sanitize(Sanitize(v, path, clean), path', clean) == Sanitize(v, path, clean)
    ensures (forall s :: clean(clean(s)) == clean(s)) ==> Logs(Sanitize(v, path, clean), path', clean) == []
  {
    if forall s :: clean(clean(s)) == clean(s) {
      SecondPassLogsNothing(v, path, path', clean);
      SanitizeIdempotent(v, path, path', clean);
    }
  }

  /** The log batches of an object's members, in member order. */
  ghost function MemberLogs(fields: seq<(string, Json)>, path: string, clean: string -> string): (r: seq<seq<string>>)
    ensures |r| == |fields|
    ensures forall i :: 0 <= i < |fields| ==> r[i] == Logs(fields[i].1, KeyPath(path, fields[i].0), clean)
  {
    seq(|fields|, i requires 0 <= i < |fields| => Logs(fields[i].1, KeyPath(path, fields[i].0), clean))
  }

  /** An object sanitises member by member, and logs its members' batches in order. */
  lemma ObjectParts(fields: seq<(string, Json)>, path: string, clean: string -> string, out: seq<(string, Json)>)
    requires |out| == |fields|
    requires forall i :: 0 <= i < |fields| ==> out[i] == (fields[i].0, Sanitize(fields[i].1, KeyPath(path, fields[i].0), clean))
    ensures Sanitize(JObject(fields), path, clean) == JObject(out)
    ensures Logs(JObject(fields), path, clean) == Concat(MemberLogs(fields, path, clean))
  {
    var batches := seq(|fields|, i requires 0 <= i < |fields| => Logs(fields[i].1, KeyPath(path, fields[i].0), clean));
    assert batches == MemberLogs(fields, path, clean);
  }

  /** The object branch: `sanitizedObj` filled key by key in the for-in loop. */
  method SanitizeObject(fields: seq<(string, Json)>, path: string, clean: string -> string)
    returns (sanitizedObj: seq<(string, Json)>, logs: seq<string>)
    ensures JObject(sanitizedObj) == Sanitize(JObject(fields), path, clean)
    ensures logs == Logs(JObject(fields), path, clean)
  {
    ghost var batches := MemberLogs(fields, path, clean);
    sanitizedObj := [];
    logs := [];
    var i := 0;
    while i < |fields|
      invariant 0 <= i <= |fields|
      invariant |sanitizedObj| == i
      invariant forall j :: 0 <= j < i ==>
        sanitizedObj[j] == (fields[j].0, Sanitize(fields[j].1, KeyPath(path, fields[j].0), clean))
      invariant logs == Concat(batches[..i])
    {
      var (key, value) := fields[i];
      var cleaned := Sanitize(value, KeyPath(path, key), clean);
      sanitizedObj := sanitizedObj + [(key, cleaned)];
      ConcatSnoc(batches, i);
      assert batches[i] == Logs(value, KeyPath(path, key), clean);
      logs := logs + Logs(value, KeyPath(path, key), clean);
      i := i + 1;
    }
    assert batches[..i] == batches;
    ObjectParts(fields, path, clean, sanitizedObj);
  }

  /** Whether a header is one the middleware sanitises: its name starts with 'x-' or 'custom-'. */
  predicate IsUserHeader(key: string) {
    (|key| >= 2 && key[..2] == "x-") || (|key| >= 7 && key[..7] == "custom-")
  }

  /** `Object.fromEntries(Object.entries(headers).filter(...))`. */
  function UserHeaders(headers: seq<(string, Json)>): (r: seq<(string, Json)>)
    ensures forall p :: p in r <==> p in headers && IsUserHeader(p.0)
  {
    if headers == [] then []
    else (if IsUserHeader(headers[0].0) then [headers[0]] else []) + UserHeaders(headers[1..])
  }

  /** The value of the first member named key. */
  function Lookup(fields: seq<(string, Json)>, key: string): (r: Json)
    ensures (exists i :: 0 <= i < |fields| && fields[i].0 == key) || r == JUndefined
  {
    if fields == [] then JUndefined else if fields[0].0 == key then fields[0].1 else Lookup(fields[1..], key)
  }

  /** `Object.assign(target, source)`: members of source overwrite the same-named members of target. */
  function Assign(target: seq<(string, Json)>, source: seq<(string, Json)>): (r: seq<(string, Json)>)
    ensures |r| == |target|
  {
    seq(|target|, i requires 0 <= i < |target| =>
          if target[i].0 in Keys(source) then (target[i].0, Lookup(source, target[i].0)) else target[i])
  }

  /** The headers after the middleware: the user headers sanitised, written back over the originals. */
  function SanitizeHeaders(headers: seq<(string, Json)>, clean: string -> string): (r: seq<(string, Json)>)
    ensures |r| == |headers| && forall i :: 0 <= i < |headers| ==> r[i].0 == headers[i].0
  {
    Assign(headers, Sanitize(JObject(UserHeaders(headers)), "headers", clean).fields)
  }

  /** In a well-formed object the member named key is found at its own index. */
  lemma LookupDistinct(fields: seq<(string, Json)>, i: nat)
    requires DistinctKeys(fields) && i < |fields|
    ensures Lookup(fields, fields[i].0) == fields[i].1
  {
    if i > 0 {
      assert DistinctKeys(fields[1..]) by {
        forall a, b | 0 <= a < b < |fields[1..]| ensures fields[1..][a].0 != fields[1..][b].0 {
          assert fields[1..][a] == fields[a + 1] && fields[1..][b] == fields[b + 1];
        }
      }
      assert fields[1..][i - 1] == fields[i];
      LookupDistinct(fields[1..], i - 1);
    }
  }

  /** The headers UserHeaders selects from a well-formed object still have distinct names. */
  lemma {:induction false} UserHeadersDistinct(headers: seq<(string, Json)>)
    requires DistinctKeys(headers)
    ensures DistinctKeys(UserHeaders(headers))
  {
    if headers != [] {
      var rest := headers[1..];
      assert DistinctKeys(rest) by {
        forall a, b | 0 <= a < b < |rest| ensures rest[a].0 != rest[b].0 {
          assert rest[a] == headers[a + 1] && rest[b] == headers[b + 1];
        }
      }
      UserHeadersDistinct(rest);
      var tail := UserHeaders(rest);
      forall p | p in tail ensures p.0 != headers[0].0 {
        var k :| 0 <= k < |rest| && rest[k] == p;
        assert headers[k + 1] == p;
      }
    }
  }

  /**
   * Only headers named 'x-…' or 'custom-…' are sanitised (with path `headers.<name>`); every
   * other header keeps its value, and no header is added, removed or reordered.
   */
  lemma SanitizeHeadersEffect(headers: seq<(string, Json)>, clean: string -> string)
    requires DistinctKeys(headers)
    ensures var r := SanitizeHeaders(headers, clean);
      && |r| == |headers|
      && forall i :: 0 <= i < |headers| ==>
           r[i] == (headers[i].0, if IsUserHeader(headers[i].0)
                                  then Sanitize(headers[i].1, KeyPath("headers", headers[i].0), clean)
                                  else headers[i].1)
  {
    var user := UserHeaders(headers);
    var s := Sanitize(JObject(user), "headers", clean).fields;
    UserHeadersDistinct(headers);
    SanitizeKeepsShape(JObject(user), "headers", clean);
    assert DistinctKeys(s) by {
      forall a, b | 0 <= a < b < |s| ensures s[a].0 != s[b].0 {
        assert s[a].0 == user[a].0 && s[b].0 == user[b].0;
      }
    }
    forall i | 0 <= i < |headers|
      ensures SanitizeHeaders(headers, clean)[i] ==
        (headers[i].0, if IsUserHeader(headers[i].0)
                       then Sanitize(headers[i].1, KeyPath("headers", headers[i].0), clean)
                       else headers[i].1)
    {
      var key := headers[i].0;
      if IsUserHeader(key) {
        assert headers[i] in user;
        var k :| 0 <= k < |user| && user[k] == headers[i];
        assert s[k] == (key, Sanitize(headers[i].1, KeyPath("headers", key), clean));
        assert Keys(s)[k] == key;
        LookupDistinct(s, k);
      }
    }
  }

  /** The request parts the middleware rewrites. */
  class HttpRequest {
    var body: Json
    var query: Json
    var params: Json
    var headers: seq<(string, Json)>

    constructor (body: Json, query: Json, params: Json, headers: seq<(string, Json)>)
      ensures this.body == body && this.query == query && this.params == params && this.headers == headers
    {
      this.body, this.query, this.params, this.headers := body, query, params, headers;
    }
  }

  /** The log lines the middleware writes, each prefixed by the request's `base` log info. */
  function Prefixed(base: string, lines: seq<string>): (r: seq<string>)
    ensures |r| == |lines|
  {
    seq(|lines|, i requires 0 <= i < |lines| => base + " - " + lines[i])
  }

  /**
   * sanitizeInput: body, query and params are replaced by their sanitised values and the user
   * headers are sanitised in place; the logs come in that order. The wrapper it installs on
   * `res.json` is SanitizeResponse.
   */
  method SanitizeRequest(req: HttpRequest, base: string, clean: string -> string) returns (logged: seq<string>)
    modifies req
    ensures req.body == Sanitize(old(req.body), "body", clean)
    ensures req.query == Sanitize(old(req.query), "query", clean)
    ensures req.params == Sanitize(old(req.params), "params", clean)
    ensures req.headers == SanitizeHeaders(old(req.headers), clean)
    ensures logged == Prefixed(base,
      Logs(old(req.body), "body", clean) + Logs(old(req.query), "query", clean)
      + Logs(old(req.params), "params", clean) + Logs(JObject(UserHeaders(old(req.headers))), "headers", clean))
  {
    var lines := Logs(req.body, "body", clean);
    req.body := Sanitize(req.body, "body", clean);
    lines := lines + Logs(req.query, "query", clean);
    req.query := Sanitize(req.query, "query", clean);
    lines := lines + Logs(req.params, "params", clean);
    req.params := Sanitize(req.params, "params", clean);
    lines := lines + Logs(JObject(UserHeaders(req.headers)), "headers", clean);
    req.headers := SanitizeHeaders(req.headers, clean);
    logged := Prefixed(base, lines);
  }

  /** The replaced `res.json`: the payload is sanitised under the path 'response' before it is sent. */
  function SanitizeResponse(data: Json, clean: string -> string): (r: Json)
    ensures (forall s :: clean(clean(s)) == clean(s)) ==> Sanitize(r, "response", clean) == r
    ensures (forall s :: clean(clean(s)) == clean(s)) ==> Logs(r, "response", clean) == []
  {
    IdempotentWhenCleanerIs(data, "response", "response", clean);
    Sanitize(data, "response", clean)
  }
}
