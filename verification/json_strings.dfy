/** The JSON text of a list of strings, as `config.go` stores
    `supported_symbols` (`json.Marshal` / `json.Unmarshal` of a `[]string`).
    The model covers the compact form `json.Marshal` writes and the two
    escapes every string needs, `\"` and `\\`. */
module JsonStrings {
  import opened Common

  /** The body of a JSON string literal: quote and backslash escaped, every
      other character as itself. */
  function Escape(s: string): (r: string)
    ensures |r| >= |s|
    ensures '"' !in s && '\\' !in s ==> r == s
  {
    if |s| == 0 then "" else EscapeChar(s[0]) + Escape(s[1..])
  }

  function EscapeChar(c: char): string
  {
    if c == '"' || c == '\\' then ['\\', c] else [c]
  }

  function EncodeString(s: string): string
  {
    "\"" + Escape(s) + "\""
  }

  function Items(xs: seq<string>): string
  {
    if |xs| == 0 then ""
    else if |xs| == 1 then EncodeString(xs[0])
    else EncodeString(xs[0]) + "," + Items(xs[1..])
  }

  /** `json.Marshal` of a non-nil `[]string`. */
  function Encode(xs: seq<string>): (r: string)
    ensures |r| >= 2 && r[0] == '[' && r[|r| - 1] == ']'
  {
    "[" + Items(xs) + "]"
  }

  /** Reads the rest of a string literal after its opening quote: the
      unescaped value and the text after the closing quote. */
  function ParseStringBody(s: string): (r: Option<(string, string)>)
    ensures r.Some? ==> |r.value.1| < |s|
    decreases |s|
  {
    if |s| == 0 then None
    else if s[0] == '"' then Some(("", s[1..]))
    else if s[0] == '\\' then
      if |s| >= 2 && (s[1] == '"' || s[1] == '\\') then
        match ParseStringBody(s[2..])
        case None => None
        case Some(p) => Some(([s[1]] + p.0, p.1))
      else None
    else
      match ParseStringBody(s[1..])
      case None => None
      case Some(p) => Some(([s[0]] + p.0, p.1))
  }

  /** Reads `"…", "…", …]` up to and including the closing bracket, which
      must end the text. */
  function ParseItems(s: string): (r: Option<seq<string>>)
    decreases |s|
  {
    if |s| == 0 || s[0] != '"' then None
    else
      match ParseStringBody(s[1..])
      case None => None
      case Some(p) =>
        var rest := p.1;
        if rest == "]" then Some([p.0])
        else if |rest| > 0 && rest[0] == ',' then
          match ParseItems(rest[1..])
          case None => None
          case Some(more) => Some([p.0] + more)
        else None
  }

  /** `json.Unmarshal` into a `[]string`: `null` decodes to the empty (nil)
      list; text that is not a list of strings is an error. */
  function Decode(t: string): (r: Option<seq<string>>)
    ensures t == "null" ==> r == Some([])
    ensures t == "[]" ==> r == Some([])
  {
    if t == "null" || t == "[]" then Some([])
    else if |t| > 0 && t[0] == '[' then ParseItems(t[1..])
    else None
  }

  /** A string literal reads back as the string it encodes, whatever text
      follows it. */
  lemma {:induction false} ParseEscaped(s: string, rest: string)
    ensures ParseStringBody(Escape(s) + "\"" + rest) == Some((s, rest))
    decreases |s|
  {
    if |s| == 0 {
      assert Escape(s) + "\"" + rest == "\"" + rest;
    } else {
      ParseEscaped(s[1..], rest);
      var tail := Escape(s[1..]) + "\"" + rest;
      assert Escape(s) + "\"" + rest == EscapeChar(s[0]) + tail;
      ParseEscapedChar(s[0], tail, s[1..], rest);
      assert [s[0]] + s[1..] == s;
    }
  }

  /** One escaped character in front of a literal's body. */
  lemma ParseEscapedChar(c: char, tail: string, v: string, rest: string)
    requires ParseStringBody(tail) == Some((v, rest))
    ensures ParseStringBody(EscapeChar(c) + tail) == Some(([c] + v, rest))
  {
    var t := EscapeChar(c) + tail;
    if c == '"' || c == '\\' {
      assert t[0] == '\\' && t[1] == c && t[2..] == tail;
    } else {
      assert t[0] == c && t[1..] == tail;
    }
  }

  lemma {:induction false} ParseItemsOfItems(xs: seq<string>)
    requires |xs| >= 1
    ensures ParseItems(Items(xs) + "]") == Some(xs)
    decreases |xs|
  {
    var t := Items(xs) + "]";
    if |xs| == 1 {
      assert t == "\"" + (Escape(xs[0]) + "\"" + "]");
      ParseEscaped(xs[0], "]");
      assert t[1..] == Escape(xs[0]) + "\"" + "]";
      assert [xs[0]] == xs;
    } else {
      var more := Items(xs[1..]) + "]";
      assert t == "\"" + (Escape(xs[0]) + "\"" + ("," + more));
      ParseEscaped(xs[0], "," + more);
      assert t[1..] == Escape(xs[0]) + "\"" + ("," + more);
      ParseItemsOfItems(xs[1..]);
      assert ("," + more)[1..] == more;
      assert [xs[0]] + xs[1..] == xs;
    }
  }

  /** Decoding what was encoded gives the list back. */
  lemma DecodeEncode(xs: seq<string>)
    ensures Decode(Encode(xs)) == Some(xs)
  {
    if |xs| > 0 {
      var t := Encode(xs);
      assert t[1..] == Items(xs) + "]";
      ParseItemsOfItems(xs);
      assert Items(xs)[0] == '"';
      assert t[1] == '"';
    }
  }

  /** The text of a two-element list of plain strings. */
  lemma EncodePair(a: string, b: string)
    requires '"' !in a && '\\' !in a && '"' !in b && '\\' !in b
    ensures Encode([a, b]) == "[" + "\"" + a + "\"" + "," + "\"" + b + "\"" + "]"
  {
    assert [a, b][1..] == [b];
    assert Items([a, b]) == EncodeString(a) + "," + EncodeString(b);
  }
}
