/** The string builders of the API-docs page (web/api-docs.js): endpoint
    ids, the curl command, the request URL of "try it", and the HTML
    escaping step of the JSON highlighter. `encodeURIComponent` and
    `JSON.stringify` are parameters or given texts. */
module ApiDocs {
  import opened Common
  import opened Seqs
  import opened Text

  // ---------------------------------------------------------------------
  // Endpoint ids

  /** `path.replace(/[^a-zA-Z0-9]/g, '_')`. */
  function Slug(path: string): (r: string)
    ensures |r| == |path|
    ensures forall i :: 0 <= i < |path| ==> r[i] == (if IsAlnum(path[i]) then path[i] else '_')
    ensures forall i :: 0 <= i < |r| ==> IsAlnum(r[i]) || r[i] == '_'
  {
    seq(|path|, i requires 0 <= i < |path| => if IsAlnum(path[i]) then path[i] else '_')
  }

  /** `${method}_${slug}`: the id of an endpoint's card; `verb` is the HTTP method. */
  function EndpointId(verb: string, path: string): (r: string)
    ensures |r| == |verb| + 1 + |path|
    ensures r[..|verb|] == verb && r[|verb|] == '_' && r[|verb| + 1..] == Slug(path)
    ensures (forall i :: 0 <= i < |verb| ==> IsAlnum(verb[i])) ==>
              forall i :: 0 <= i < |r| ==> IsAlnum(r[i]) || r[i] == '_'
  {
    var r := verb + "_" + Slug(path);
    assert r[|verb| + 1..] == Slug(path);
    r
  }

  /** The slug keeps letters and digits where they are and is idempotent. */
  lemma SlugIdempotent(path: string)
    ensures Slug(Slug(path)) == Slug(path)
  {
  }

  /** An id can be told back into its method when the method has no '_':
      the method is the text before the first '_'. */
  lemma EndpointIdMethod(verb: string, path: string)
    requires '_' !in verb
    ensures var id := EndpointId(verb, path);
      IndexOfFrom(id, "_", 0) == |verb|
  {
    var id := EndpointId(verb, path);
    forall j | 0 <= j < |verb| ensures !OccursAt(id, "_", j) {
      assert id[j] == verb[j];
      assert verb[j] in verb;
      assert id[j..j + 1] == [id[j]];
    }
    assert id[|verb|..|verb| + 1] == "_";
    assert OccursAt(id, "_", |verb|);
  }

  // ---------------------------------------------------------------------
  // Query strings

  /** A parameter and the text of its input; '' stands for an empty or
      missing input. */
  datatype Param = Param(name: string, value: string)

  function HasValue(p: Param): bool { p.value != "" }

  /** `${name}=${encodeURIComponent(value)}`. */
  function PairWith(encode: string -> string): Param -> string
  {
    (p: Param) => p.name + "=" + encode(p.value)
  }

  /** `filter(p => p.value).map(p => name + '=' + encodeURIComponent(value)).join('&')`. */
  function QueryString(params: seq<Param>, encode: string -> string): (r: string)
    ensures (forall i :: 0 <= i < |params| ==> params[i].value == "") ==> r == ""
  {
    Join(Map(Filter(params, HasValue), PairWith(encode)), '&')
  }

  /** When no name and no encoded value contains '&', the query string
      splits back into exactly the `name=value` pairs of the parameters with
      a value, in declaration order. */
  lemma QueryStringSplits(params: seq<Param>, encode: string -> string)
    requires exists i :: 0 <= i < |params| && params[i].value != ""
    requires forall i :: 0 <= i < |params| ==> '&' !in params[i].name && '&' !in encode(params[i].value)
    ensures Split(QueryString(params, encode), '&') == Map(Filter(params, HasValue), PairWith(encode))
  {
    var kept := Filter(params, HasValue);
    var i :| 0 <= i < |params| && params[i].value != "";
    assert params[i] in kept;
    var pairs := Map(kept, PairWith(encode));
    forall k | 0 <= k < |pairs| ensures '&' !in pairs[k] {
      var j :| 0 <= j < |params| && params[j] == kept[k];
      assert pairs[k] == kept[k].name + "=" + encode(kept[k].value);
      NoCharInPair(kept[k].name, encode(kept[k].value), '&');
    }
    SplitJoin(pairs, '&');
  }

  lemma NoCharInPair(a: string, b: string, c: char)
    requires c !in a && c !in b && c != '='
    ensures c !in a + "=" + b
  {
  }

  // ---------------------------------------------------------------------
  // The curl command

  /** One line of the generated command; the lines are joined with a
      backslash-newline and two spaces. */
  datatype CurlLine =
    | Request(verb: string, url: string)        // curl -X <method> '<url>'
    | ApiKeyHeader(apiKey: string)                // -H 'X-MBX-APIKEY: <key>'
    | JsonContentType                             // -H 'Content-Type: application/json'
    | Data(json: string)                          // -d '<body as pretty JSON>'

  /** `generateCurlCommand(method, path, params, body, apiKey)`. `body` is
      the pretty-printed JSON of a truthy body, or none. When the query
      string is not empty the command is started again from the request
      line, so the body lines are dropped. */
  function GenerateCurl(base: string, verb: string, path: string, params: seq<Param>,
                        body: Option<string>, apiKey: string, encode: string -> string): (r: seq<CurlLine>)
    ensures |r| >= 1 && r[0].Request? && r[0].verb == verb
    ensures var q := QueryString(params, encode);
      && (q == "" ==> r[0].url == base + path)
      && (q != "" ==> r[0].url == base + path + "?" + q)
    ensures ApiKeyHeader(apiKey) in r <==> apiKey != ""
    ensures apiKey != "" ==> r[1] == ApiKeyHeader(apiKey)
    ensures var q := QueryString(params, encode);
      && (q == "" && verb == "POST" && body.Some? ==>
            |r| >= 3 && r[|r| - 2] == JsonContentType && r[|r| - 1] == Data(body.value))
      && (q != "" || verb != "POST" || body.None? ==>
            JsonContentType !in r && forall i :: 0 <= i < |r| ==> !r[i].Data?)
  {
    var url := base + path;
    var keyLine := if apiKey != "" then [ApiKeyHeader(apiKey)] else [];
    var q := QueryString(params, encode);
    if q != "" then
      [Request(verb, url + "?" + q)] + keyLine
    else
      var bodyLines := if verb == "POST" && body.Some? then [JsonContentType, Data(body.value)] else [];
      [Request(verb, url)] + keyLine + bodyLines
  }

  // ---------------------------------------------------------------------
  // The request URL of executeRequest

  /** Path-parameter substitution: each parameter with a value replaces the
      FIRST `{name}` of the URL built so far, in declaration order. */
  function Substitute(url: string, params: seq<Param>): (r: string)
    ensures (forall i :: 0 <= i < |params| ==> params[i].value == "") ==> r == url
    decreases |params|
  {
    if |params| == 0 then url
    else
      var p := params[0];
      var u := if p.value != "" then ReplaceFirst(url, "{" + p.name + "}", p.value) else url;
      Substitute(u, params[1..])
  }

  /** Read from the other end: the last parameter, when it has a value,
      replaces the first placeholder left by all the parameters before it. */
  lemma {:induction false} SubstituteSnoc(url: string, ps: seq<Param>, p: Param)
    ensures Substitute(url, ps + [p])
         == if p.value != "" then ReplaceFirst(Substitute(url, ps), "{" + p.name + "}", p.value)
            else Substitute(url, ps)
    decreases |ps|
  {
    if |ps| == 0 {
      assert ps + [p] == [p];
    } else {
      var q := ps[0];
      var u := if q.value != "" then ReplaceFirst(url, "{" + q.name + "}", q.value) else url;
      SubstituteSnoc(u, ps[1..], p);
      assert (ps + [p])[1..] == ps[1..] + [p];
    }
  }

  /** Parameters without a value take no part in the substitution. */
  lemma {:induction false} SubstituteSkipsEmpty(url: string, params: seq<Param>)
    ensures Substitute(url, params) == Substitute(url, Filter(params, HasValue))
    decreases |params|
  {
    if |params| > 0 {
      var p := params[0];
      var u := if p.value != "" then ReplaceFirst(url, "{" + p.name + "}", p.value) else url;
      SubstituteSkipsEmpty(u, params[1..]);
      var kept := Filter(params, HasValue);
      if p.value != "" {
        assert kept == [p] + Filter(params[1..], HasValue);
        assert kept[0] == p && kept[1..] == Filter(params[1..], HasValue);
      } else {
        assert kept == Filter(params[1..], HasValue);
      }
    }
  }

  /** The URL `executeRequest` fetches: path parameters substituted, and for
      a GET every parameter with a value appended again as a query
      parameter; `params` is none for an endpoint without a parameter list. */
  function RequestUrl(base: string, verb: string, path: string, params: Option<seq<Param>>,
                      encode: string -> string): (r: string)
    ensures params.None? ==> r == base + path
    ensures params.Some? ==> var sub := Substitute(base + path, params.value);
      var q := QueryString(params.value, encode);
      && (verb == "GET" && q != "" ==> r == sub + "?" + q)
      && (verb != "GET" || q == "" ==> r == sub)
  {
    match params
    case None => base + path
    case Some(ps) =>
      var sub := Substitute(base + path, ps);
      var q := QueryString(ps, encode);
      if verb == "GET" && q != "" then sub + "?" + q else sub
  }

  /** A single path parameter with a value is spliced in at the first
      occurrence of its placeholder, and for a GET the same value is also
      sent in the query string. */
  lemma SinglePathParam(base: string, path: string, name: string, value: string, encode: string -> string)
    requires value != ""
    ensures RequestUrl(base, "GET", path, Some([Param(name, value)]), encode)
         == ReplaceFirst(base + path, "{" + name + "}", value) + "?" + name + "=" + encode(value)
  {
    var p := Param(name, value);
    var ps := [p];
    assert Filter(ps, HasValue) == ps by {
      assert Filter(ps[1..], HasValue) == [];
    }
    var pairs := Map(ps, PairWith(encode));
    assert pairs == [name + "=" + encode(value)];
    assert QueryString(ps, encode) == name + "=" + encode(value);
    assert Substitute(base + path, ps) == Substitute(ReplaceFirst(base + path, "{" + name + "}", value), ps[1..]);
  }

  // ---------------------------------------------------------------------
  // HTML escaping in syntaxHighlight

  /** Replaces every `c` in `s` by `t`: `s.replace(/c/g, t)` for a
      one-character pattern. */
  function ReplaceAll(s: string, c: char, t: string): (r: string)
    ensures c !in s ==> r == s
    decreases |s|
  {
    if |s| == 0 then ""
    else (if s[0] == c then t else [s[0]]) + ReplaceAll(s[1..], c, t)
  }

  function EscapeChar(c: char): string
  {
    if c == '&' then "&amp;" else if c == '<' then "&lt;" else if c == '>' then "&gt;" else [c]
  }

  /** Escaping as one pass over the characters. */
  function EscapeMap(s: string): (r: string)
    ensures |r| >= |s|
    decreases |s|
  {
    if |s| == 0 then "" else EscapeChar(s[0]) + EscapeMap(s[1..])
  }

  /** The three replacements of `syntaxHighlight`, in their order: '&'
      first, then '<', then '>'. */
  function Escape(s: string): string
  {
    ReplaceAll(ReplaceAll(ReplaceAll(s, '&', "&amp;"), '<', "&lt;"), '>', "&gt;")
  }

  lemma {:induction false} ReplaceAllAppend(a: string, b: string, c: char, t: string)
    ensures ReplaceAll(a + b, c, t) == ReplaceAll(a, c, t) + ReplaceAll(b, c, t)
    decreases |a|
  {
    if |a| > 0 {
      ReplaceAllAppend(a[1..], b, c, t);
      assert (a + b)[1..] == a[1..] + b;
    } else {
      assert a + b == b;
    }
  }

  /** Because '&' goes first, no entity the later steps insert is escaped
      again: the three passes are the one-pass escape. */
  lemma {:induction false} EscapeIsOnePass(s: string)
    ensures Escape(s) == EscapeMap(s)
    decreases |s|
  {
    if |s| > 0 {
      EscapeIsOnePass(s[1..]);
      var c := s[0];
      var head := if c == '&' then "&amp;" else [c];
      var s1 := ReplaceAll(s, '&', "&amp;");
      assert s1 == head + ReplaceAll(s[1..], '&', "&amp;");
      ReplaceAllAppend(head, ReplaceAll(s[1..], '&', "&amp;"), '<', "&lt;");
      var head2 := if c == '<' then "&lt;" else head;
      assert ReplaceAll(head, '<', "&lt;") == head2 by {
        if c != '&' && c != '<' {
          assert head == [c];
        } else if c == '&' {
          assert '<' !in "&amp;";
        } else {
          assert ReplaceAll([c], '<', "&lt;") == "&lt;" + ReplaceAll([], '<', "&lt;");
        }
      }
      ReplaceAllAppend(head2, ReplaceAll(ReplaceAll(s[1..], '&', "&amp;"), '<', "&lt;"), '>', "&gt;");
      assert ReplaceAll(head2, '>', "&gt;") == EscapeChar(c) by {
        if c == '&' {
          assert '>' !in "&amp;";
        } else if c == '<' {
          assert '>' !in "&lt;";
        } else if c == '>' {
          assert ReplaceAll([c], '>', "&gt;") == "&gt;" + ReplaceAll([], '>', "&gt;");
        } else {
          assert head2 == [c];
        }
      }
    }
  }

  /** Reading the entities back. */
  function Unescape(s: string): string
    decreases |s|
  {
    if |s| == 0 then ""
    else if |s| >= 5 && s[..5] == "&amp;" then "&" + Unescape(s[5..])
    else if |s| >= 4 && s[..4] == "&lt;" then "<" + Unescape(s[4..])
    else if |s| >= 4 && s[..4] == "&gt;" then ">" + Unescape(s[4..])
    else [s[0]] + Unescape(s[1..])
  }

  /** Escaping loses nothing: the escaped text reads back to the original. */
  lemma {:induction false} UnescapeEscape(s: string)
    ensures Unescape(Escape(s)) == s
  {
    EscapeIsOnePass(s);
    UnescapeEscapeMap(s);
  }

  lemma {:induction false} UnescapeEscapeMap(s: string)
    ensures Unescape(EscapeMap(s)) == s
    decreases |s|
  {
    if |s| > 0 {
      UnescapeEscapeMap(s[1..]);
      var e := EscapeMap(s);
      var rest := EscapeMap(s[1..]);
      assert e == EscapeChar(s[0]) + rest;
      var c := s[0];
      if c == '&' {
        assert e[..5] == "&amp;" && e[5..] == rest;
        assert Unescape(e) == "&" + Unescape(rest);
      } else if c == '<' {
        assert e[..4] == "&lt;" && e[4..] == rest;
        assert |e| >= 5 ==> e[..5][1] == 'l';
        assert Unescape(e) == "<" + Unescape(rest);
      } else if c == '>' {
        assert e[..4] == "&gt;" && e[4..] == rest;
        assert |e| >= 5 ==> e[..5][1] == 'g';
        assert e[..4][1] == 'g';
        assert Unescape(e) == ">" + Unescape(rest);
      } else {
        assert e[0] == c && e[1..] == rest;
        assert |e| >= 4 ==> e[..4][0] == c;
        assert |e| >= 5 ==> e[..5][0] == c;
        assert Unescape(e) == [c] + Unescape(rest);
      }
      assert s == [c] + s[1..];
    }
  }

  /** The order matters: escaping '<' before '&' would escape the inserted
      entity a second time, so a text starting with '<' would show as
      "&amp;lt;" instead of "&lt;". */
  lemma WrongOrderDoubleEscapes(s: string)
    ensures ReplaceAll(ReplaceAll(['<'] + s, '<', "&lt;"), '&', "&amp;")
         == "&amp;lt;" + ReplaceAll(ReplaceAll(s, '<', "&lt;"), '&', "&amp;")
    ensures Escape(['<'] + s) == "&lt;" + Escape(s)
  {
    ReplaceAllHead('<', s, "&lt;");
    var x := ReplaceAll(s, '<', "&lt;");
    ReplaceAllAppend("&lt;", x, '&', "&amp;");
    ReplaceAllHead('&', "lt;", "&amp;");
    assert ['&'] + "lt;" == "&lt;";
    assert ReplaceAll("lt;", '&', "&amp;") == "lt;";
    assert ReplaceAll("&lt;", '&', "&amp;") == "&amp;lt;";
    EscapeIsOnePass(['<'] + s);
    assert (['<'] + s)[1..] == s;
    assert EscapeMap(['<'] + s) == "&lt;" + EscapeMap(s);
    EscapeIsOnePass(s);
  }

  lemma ReplaceAllHead(c: char, s: string, t: string)
    ensures ReplaceAll([c] + s, c, t) == t + ReplaceAll(s, c, t)
  {
    assert ([c] + s)[1..] == s;
  }

  /** `syntaxHighlight`'s first steps: '' for a falsy input, otherwise the
      escaped text (the span markup added afterwards by regular expressions
      is not modelled). `json` is none for a falsy value, else its text. */
  function HighlightEscaped(json: Option<string>): (r: string)
    ensures json.None? ==> r == ""
    ensures json.Some? ==> r == EscapeMap(json.value) && Unescape(r) == json.value
  {
    match json
    case None => ""
    case Some(text) =>
      UnescapeEscape(text);
      EscapeIsOnePass(text);
      Escape(text)
  }
}
