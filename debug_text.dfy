/**
 * Rust's `{:?}` rendering of a `Vec<String>`, as `paper_recommendations_multi` writes it into
 * the text it embeds and caches under, and a reader for it: the rendering can be read back,
 * so it loses nothing.
 */
module DebugText {
  import opened Wrappers
  import opened Text

  /** The escape `{:?}` writes for one character of a string. */
  function EscapeChar(c: char): (r: string)
    ensures |r| > 0 && r[0] != '"'
  {
    if c == '"' then ['\\', '"']
    else if c == '\\' then ['\\', '\\']
    else if c == '\n' then ['\\', 'n']
    else if c == '\r' then ['\\', 'r']
    else if c == '\t' then ['\\', 't']
    else if c == '\0' then ['\\', '0']
    else [c]
  }

  function Escaped(s: string): string
    decreases |s|
  {
    if |s| == 0 then "" else EscapeChar(s[0]) + Escaped(s[1..])
  }

  /** `format!("{:?}", s)` for a string: the escaped text between double quotes. */
  function Quoted(s: string): string {
    ['"'] + Escaped(s) + ['"']
  }

  function QuotedAll(ss: seq<string>): (r: seq<string>)
    ensures |r| == |ss|
    decreases |ss|
  {
    if |ss| == 0 then [] else [Quoted(ss[0])] + QuotedAll(ss[1..])
  }

  /** `format!("{:?}", v)` for a `Vec<String>`: `["a", "b"]`. */
  function DebugList(ss: seq<string>): string {
    ['['] + Join(QuotedAll(ss), ", ") + [']']
  }

  // ----- Reading it back

  /** The character an escape `\c` stands for, if `c` names one. */
  function Unescaped(c: char): Option<char> {
    if c == '"' then Some('"') else if c == '\\' then Some('\\') else if c == 'n' then Some('\n')
    else if c == 'r' then Some('\r') else if c == 't' then Some('\t') else if c == '0' then Some('\0')
    else None
  }

  /** Every two-character escape names the character it was written for. */
  lemma UnescapedEscape(c: char)
    requires |EscapeChar(c)| == 2
    ensures EscapeChar(c)[0] == '\\' && Unescaped(EscapeChar(c)[1]) == Some(c)
  {
  }

  /**
   * Reads the escaped text of a string up to its closing quote: the text and what follows the
   * quote, or nothing when there is no closing quote or an unknown escape.
   */
  function Unescape(s: string): (r: Option<(string, string)>)
    ensures r.Some? ==> |r.value.1| < |s|
    decreases |s|
  {
    if |s| == 0 then None
    else if s[0] == '"' then Some(("", s[1..]))
    else if s[0] == '\\' then
      if |s| < 2 then None
      else
        match Unescaped(s[1])
        case None => None
        case Some(d) =>
          match Unescape(s[2..])
          case None => None
          case Some(p) => Some(([d] + p.0, p.1))
    else
      match Unescape(s[1..])
      case None => None
      case Some(p) => Some(([s[0]] + p.0, p.1))
  }

  function ReadQuoted(s: string): (r: Option<(string, string)>)
    ensures r.Some? ==> |r.value.1| < |s|
  {
    if |s| > 0 && s[0] == '"' then Unescape(s[1..]) else None
  }

  /** Reads the items of a list after its `[`, up to and including the closing `]`. */
  function ReadItems(s: string): (r: Option<(seq<string>, string)>)
    ensures r.Some? ==> |r.value.1| < |s|
    decreases |s|
  {
    match ReadQuoted(s)
    case None => None
    case Some(p) =>
      var (item, rest) := p;
      if StartsWith(rest, "]") then Some(([item], rest[1..]))
      else if StartsWith(rest, ", ") then
        match ReadItems(rest[2..])
        case None => None
        case Some(q) => Some(([item] + q.0, q.1))
      else None
  }

  /** Reads a `{:?}`-rendered list at the start of `s`: its strings and what follows it. */
  function ReadList(s: string): Option<(seq<string>, string)> {
    if StartsWith(s, "[]") then Some(([], s[2..]))
    else if StartsWith(s, "[") then ReadItems(s[1..])
    else None
  }

  // ----- Round trips

  lemma {:induction false} UnescapeEscaped(x: string, rest: string)
    ensures Unescape(Escaped(x) + ['"'] + rest) == Some((x, rest))
    decreases |x|
  {
    if |x| == 0 {
      assert Escaped(x) + ['"'] + rest == ['"'] + rest;
    } else {
      UnescapeEscaped(x[1..], rest);
      var tail := Escaped(x[1..]) + ['"'] + rest;
      assert Escaped(x) + ['"'] + rest == EscapeChar(x[0]) + tail;
      UnescapeChar(x[0], tail);
      assert x == [x[0]] + x[1..];
    }
  }

  /** One escaped character in front of text that reads back: the character is read first. */
  lemma UnescapeChar(c: char, tail: string)
    requires Unescape(tail).Some?
    ensures Unescape(EscapeChar(c) + tail) == Some(([c] + Unescape(tail).value.0, Unescape(tail).value.1))
  {
    var e := EscapeChar(c);
    var s := e + tail;
    if |e| == 2 {
      UnescapedEscape(c);
      assert s[0] == '\\' && s[1] == e[1] && s[2..] == tail;
    } else {
      assert s[0] == c && s[1..] == tail;
    }
  }

  lemma ReadQuotedQuoted(x: string, rest: string)
    ensures ReadQuoted(Quoted(x) + rest) == Some((x, rest))
  {
    var s := Quoted(x) + rest;
    assert s[1..] == Escaped(x) + ['"'] + rest;
    UnescapeEscaped(x, rest);
  }

  /** The last item of a list: its quoted text and the closing bracket. */
  lemma ReadItemsLast(x: string, rest: string)
    ensures ReadItems(Quoted(x) + ("]" + rest)) == Some(([x], rest))
  {
    var tail := "]" + rest;
    ReadQuotedQuoted(x, tail);
    assert tail[1..] == rest && StartsWith(tail, "]");
  }

  /** An item followed by a separator and more items. */
  lemma ReadItemsMore(x: string, after: string)
    requires ReadItems(after).Some?
    ensures ReadItems(Quoted(x) + (", " + after)) == Some(([x] + ReadItems(after).value.0, ReadItems(after).value.1))
  {
    var tail := ", " + after;
    ReadQuotedQuoted(x, tail);
    assert tail[2..] == after;
    assert tail[0] == ',' && !StartsWith(tail, "]") && StartsWith(tail, ", ");
  }

  lemma {:induction false} ReadItemsJoined(ss: seq<string>, rest: string)
    requires |ss| > 0
    ensures ReadItems(Join(QuotedAll(ss), ", ") + "]" + rest) == Some((ss, rest))
    decreases |ss|
  {
    var qs := QuotedAll(ss);
    var s := Join(qs, ", ") + "]" + rest;
    if |ss| == 1 {
      assert qs == [Quoted(ss[0])];
      assert s == Quoted(ss[0]) + ("]" + rest);
      ReadItemsLast(ss[0], rest);
      assert ss == [ss[0]];
    } else {
      assert qs[1..] == QuotedAll(ss[1..]);
      var after := Join(QuotedAll(ss[1..]), ", ") + "]" + rest;
      assert s == Quoted(ss[0]) + (", " + after);
      ReadItemsJoined(ss[1..], rest);
      ReadItemsMore(ss[0], after);
      assert ss == [ss[0]] + ss[1..];
    }
  }

  /** Reading a rendered list gives back the strings and leaves what followed it. */
  lemma ReadDebugList(ss: seq<string>, rest: string)
    ensures ReadList(DebugList(ss) + rest) == Some((ss, rest))
  {
    var s := DebugList(ss) + rest;
    if |ss| == 0 {
      assert s == "[]" + rest;
      assert s[2..] == rest;
    } else {
      var q := Quoted(ss[0]);
      assert QuotedAll(ss)[0] == q;
      assert Join(QuotedAll(ss), ", ")[0] == '"' by {
        if |ss| == 1 {
        } else {
          assert Join(QuotedAll(ss), ", ") == q + ", " + Join(QuotedAll(ss)[1..], ", ");
        }
      }
      assert s[1] == '"';
      assert !StartsWith(s, "[]");
      assert s[1..] == Join(QuotedAll(ss), ", ") + "]" + rest;
      ReadItemsJoined(ss, rest);
    }
  }

  /** Different lists of strings render differently. */
  lemma DebugListInjective(a: seq<string>, b: seq<string>)
    requires DebugList(a) == DebugList(b)
    ensures a == b
  {
    ReadDebugList(a, "");
    ReadDebugList(b, "");
    assert DebugList(a) + "" == DebugList(b) + "";
  }
}
