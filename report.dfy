/**
 * The building blocks shared by the tools' formatters. A formatter's output is modelled as a
 * sequence of structured lines (`Line`) rather than exact text; `Render` turns them into the
 * string a tool returns and caches. The numbered listing (`Listing`, built by the loop
 * `ListLines`) that every list-shaped formatter uses, the field helpers and the byte-budget
 * truncation of abstracts are defined here once.
 */
module Report {
  import opened Wrappers
  import opened Text
  import opened Json

  datatype Line =
    /** A complete short answer: an error or a "nothing found" notice. */
    | Message(text: string)
    /** A heading line such as the paper title of `paper_details`. */
    | Title(text: string)
    /** "Found {count} {text}". */
    | Count(count: nat, text: string)
    /** "Found {total} total {text} ... Showing results {first}-{last}". */
    | Range(total: nat, first: nat, last: nat, text: string)
    /** A numbered entry of a listing: "{number}. {text}". */
    | Entry(number: nat, text: string)
    /** An indented numbered sub-entry (representative papers, citation contexts). */
    | Nested(number: nat, text: string)
    /** "   {label}: {text}". */
    | Field(name: string, text: string)
    /** "- {text}". */
    | Bullet(text: string)
    /** "{name}: {text}", unindented, as in the single-record answers. */
    | Detail(name: string, text: string)
    /** A marker line such as "[INFLUENTIAL CITATION]". */
    | Flag(text: string)
    /** "... and {count} more {text}". */
    | More(count: nat, text: string)
    /** "For more {text}, use offset={offset}". */
    | Next(offset: nat, text: string)
    /** A fixed hint or sub-heading line. */
    | Note(text: string)
    | Blank

  function RenderLine(line: Line): string {
    match line
    case Message(t) => t
    case Title(t) => t
    case Count(n, t) => "Found " + NatToString(n) + " " + t
    case Range(total, first, last, t) =>
      "Found " + NatToString(total) + " total " + t + ". Showing results "
      + NatToString(first) + "-" + NatToString(last) + ":"
    case Entry(n, t) => NatToString(n) + ". " + t
    case Nested(n, t) => "     " + NatToString(n) + ". " + t
    case Field(l, t) => "   " + l + ": " + t
    case Bullet(t) => "- " + t
    case Detail(l, t) => l + ": " + t
    case Flag(t) => "   " + t
    case More(n, t) => "... and " + NatToString(n) + " more " + t
    case Next(n, t) => "For more " + t + ", use offset=" + NatToString(n)
    case Note(t) => t
    case Blank => ""
  }

  /** The text of a formatted answer: the rendered lines, each followed by a line break. */
  function Render(lines: seq<Line>): string
    decreases |lines|
  {
    if |lines| == 0 then "" else RenderLine(lines[0]) + "\n" + Render(lines[1..])
  }

  /** The numbered entries of a formatted answer, in order. */
  function Entries(lines: seq<Line>): seq<(nat, string)>
    decreases |lines|
  {
    if |lines| == 0 then []
    else (if lines[0].Entry? then [(lines[0].number, lines[0].text)] else []) + Entries(lines[1..])
  }

  /** The numbers of the indented sub-entries, in order. */
  function NestedNumbers(lines: seq<Line>): seq<nat>
    decreases |lines|
  {
    if |lines| == 0 then []
    else (if lines[0].Nested? then [lines[0].number] else []) + NestedNumbers(lines[1..])
  }

  predicate NoEntries(lines: seq<Line>) {
    forall i | 0 <= i < |lines| :: !lines[i].Entry?
  }

  /**
   * Lines that can appear inside an item's block: fields, sub-entries, sub-headings, markers
   * and "more" lines, but no entries, next-offset hints or separators.
   */
  predicate Inner(lines: seq<Line>) {
    forall i | 0 <= i < |lines| ::
      lines[i].Field? || lines[i].Nested? || lines[i].Note? || lines[i].More? || lines[i].Flag? || lines[i].Bullet?
  }

  /** Lines that are all `Field` lines, as the per-item parts of the formatters are. */
  predicate FieldsOnly(lines: seq<Line>) {
    forall i | 0 <= i < |lines| :: lines[i].Field?
  }

  lemma {:induction false} EntriesConcat(a: seq<Line>, b: seq<Line>)
    ensures Entries(a + b) == Entries(a) + Entries(b)
    decreases |a|
  {
    if |a| == 0 {
      assert a + b == b;
    } else {
      var ab := a + b;
      assert ab[0] == a[0];
      assert ab[1..] == a[1..] + b;
      EntriesConcat(a[1..], b);
      var h: seq<(nat, string)> := if a[0].Entry? then [(a[0].number, a[0].text)] else [];
      assert Entries(ab) == h + Entries(a[1..] + b);
      assert Entries(a) == h + Entries(a[1..]);
      assert h + (Entries(a[1..]) + Entries(b)) == h + Entries(a[1..]) + Entries(b);
    }
  }

  lemma {:induction false} NestedConcat(a: seq<Line>, b: seq<Line>)
    ensures NestedNumbers(a + b) == NestedNumbers(a) + NestedNumbers(b)
    decreases |a|
  {
    if |a| == 0 {
      assert a + b == b;
    } else {
      var ab := a + b;
      assert ab[0] == a[0];
      assert ab[1..] == a[1..] + b;
      NestedConcat(a[1..], b);
    }
  }

  lemma {:induction false} NoEntriesEmpty(lines: seq<Line>)
    requires NoEntries(lines)
    ensures Entries(lines) == []
    decreases |lines|
  {
    if |lines| > 0 {
      NoEntriesEmpty(lines[1..]);
    }
  }

  // ----- Field helpers (each `if let Some(..) = value.get(key).and_then(..)` of a formatter)

  /** `response.get("error").is_some()`. */
  predicate HasError(response: Value) {
    Get(response, "error").Some?
  }

  /** The answer for an error object: its message, or "Unknown error". */
  function ErrorLines(response: Value): seq<Line> {
    [Message("Error: " + GetStr(Index(response, "error"), "message").GetOr("Unknown error"))]
  }

  /** `items.iter().filter_map(|x| x.get("name").and_then(|n| n.as_str()))`. */
  function Names(items: seq<Value>): (r: seq<string>)
    ensures |r| <= |items|
    decreases |items|
  {
    if |items| == 0 then []
    else
      (match GetStr(items[0], "name") case Some(n) => [n] case None => [])
      + Names(items[1..])
  }

  /** A string member, shown when present. */
  function StrField(v: Value, key: string, caption: string): (r: seq<Line>)
    ensures FieldsOnly(r) && |r| <= 1
  {
    match GetStr(v, key)
    case Some(s) => [Field(caption, s)]
    case None => []
  }

  /** A string member, shown when present and not empty. */
  function NonEmptyField(v: Value, key: string, caption: string): (r: seq<Line>)
    ensures FieldsOnly(r) && |r| <= 1
  {
    match GetStr(v, key)
    case Some(s) => if s == "" then [] else [Field(caption, s)]
    case None => []
  }

  /** A `u64` member, shown when present. */
  function NumberField(v: Value, key: string, caption: string): (r: seq<Line>)
    ensures FieldsOnly(r) && |r| <= 1
  {
    match GetU64(v, key)
    case Some(n) => [Field(caption, NatToString(n))]
    case None => []
  }

  /** A joined list, shown only when at least one element remains. */
  function ListField(caption: string, parts: seq<string>): (r: seq<Line>)
    ensures FieldsOnly(r)
    ensures |r| == (if |parts| > 0 then 1 else 0)
  {
    if |parts| > 0 then [Field(caption, Join(parts, ", "))] else []
  }

  /** One "- {text}" line per string, in order. */
  function Bullets(texts: seq<string>): (r: seq<Line>)
    ensures |r| == |texts|
    decreases |texts|
  {
    if |texts| == 0 then [] else [Bullet(texts[0])] + Bullets(texts[1..])
  }

  lemma {:induction false} BulletsAt(texts: seq<string>)
    ensures forall i | 0 <= i < |texts| :: Bullets(texts)[i] == Bullet(texts[i])
    decreases |texts|
  {
    if |texts| > 0 {
      BulletsAt(texts[1..]);
      forall i | 0 < i < |texts| ensures Bullets(texts)[i] == Bullet(texts[i]) {
        assert Bullets(texts)[i] == Bullets(texts[1..])[i - 1];
      }
    }
  }

  /** A `for` loop pushing one bullet per string. */
  method BulletLines(texts: seq<string>) returns (lines: seq<Line>)
    ensures lines == Bullets(texts)
    ensures forall i | 0 <= i < |texts| :: lines[i] == Bullet(texts[i])
  {
    lines := [];
    for i := 0 to |texts|
      invariant lines + Bullets(texts[i..]) == Bullets(texts)
    {
      assert texts[i..][1..] == texts[i + 1..];
      lines := lines + [Bullet(texts[i])];
    }
    assert texts[|texts|..] == [];
    BulletsAt(texts);
  }

  /** The "Authors" line: the names of the author objects that have a string name. */
  function AuthorsField(v: Value): (r: seq<Line>)
    ensures FieldsOnly(r) && |r| <= 1
  {
    match GetArray(v, "authors")
    case Some(authors) => ListField("Authors", Names(authors))
    case None => []
  }

  /** The string elements of an array member, shown as one line when any remain. */
  function StringsField(v: Value, key: string, caption: string): (r: seq<Line>)
    ensures FieldsOnly(r) && |r| <= 1
  {
    match GetArray(v, key)
    case Some(items) => ListField(caption, StringsOf(items))
    case None => []
  }

  /** The "Abstract" line: the full text, or its `Summary` within `limit` bytes. */
  function AbstractField(v: Value, limit: Option<nat>): (r: seq<Line>)
    ensures FieldsOnly(r) && |r| <= 1
  {
    match GetStr(v, "abstract")
    case Some(s) =>
      if s == "" then []
      else [Field("Abstract", match limit case Some(n) => Summary(s, n) case None => s)]
    case None => []
  }

  /**
   * The abstract line appears exactly when the abstract is a non-empty string. Without a limit
   * it is the whole abstract; with one it fits in the limit plus the three bytes of "...", and
   * an abstract within the limit is shown whole.
   */
  lemma AbstractShown(v: Value, limit: Option<nat>)
    ensures |AbstractField(v, limit)| == 1 <==> GetStr(v, "abstract").Some? && GetStr(v, "abstract").value != ""
    ensures |AbstractField(v, limit)| == 1 && limit.None? ==>
              AbstractField(v, limit)[0] == Field("Abstract", GetStr(v, "abstract").value)
    ensures |AbstractField(v, limit)| == 1 && limit.Some? ==>
              var s, shown := GetStr(v, "abstract").value, AbstractField(v, limit)[0].text;
              && |Utf8(shown)| <= limit.value + 3
              && (|Utf8(s)| <= limit.value ==> shown == s)
  {
    if |AbstractField(v, limit)| == 1 && limit.Some? {
      var s, n := GetStr(v, "abstract").value, limit.value;
      if |Utf8(s)| > n {
        Utf8Append(PrefixWithin(s, n), "...");
        assert |Utf8("...")| == 3;
      }
    }
  }

  /** "title (ID: id)" with the formatters' defaults for missing members. */
  function TitleWithId(v: Value): string {
    GetStr(v, "title").GetOr("Unknown title") + " (ID: " + GetStr(v, "paperId").GetOr("Unknown ID") + ")"
  }

  // ----- Abstract truncation (`if s.len() > n { format!("{}...", &s[0..n]) }`)

  /** The longest prefix of whole characters whose UTF-8 encoding fits in `budget` bytes. */
  function PrefixWithin(s: string, budget: nat): (p: string)
    ensures |p| <= |s| && p == s[..|p|] && |Utf8(p)| <= budget
    decreases |s|
  {
    if |s| == 0 then ""
    else if |Utf8Char(s[0])| <= budget then
      var rest := PrefixWithin(s[1..], budget - |Utf8Char(s[0])|);
      assert Utf8([s[0]] + rest) == Utf8Char(s[0]) + Utf8(rest) by {
        assert ([s[0]] + rest)[0] == s[0] && ([s[0]] + rest)[1..] == rest;
      }
      [s[0]] + rest
    else ""
  }

  /** An abstract cut to `limit` bytes followed by "...", when it is longer than that. */
  function Summary(s: string, limit: nat): string {
    if |Utf8(s)| > limit then PrefixWithin(s, limit) + "..." else s
  }

  /**
   * A summary keeps short abstracts as they are; a long one becomes a prefix of it within
   * `limit` bytes, followed by "...".
   */
  lemma SummaryShape(s: string, limit: nat)
    ensures |Utf8(s)| <= limit ==> Summary(s, limit) == s
    ensures |Utf8(s)| > limit ==>
              exists k :: 0 <= k <= |s| && Summary(s, limit) == s[..k] + "..." && |Utf8(s[..k])| <= limit
  {
    if |Utf8(s)| > limit {
      var p := PrefixWithin(s, limit);
      assert Summary(s, limit) == s[..|p|] + "...";
    }
  }

  /**
   * When the cut falls on a character boundary (the only case in which Rust's `&s[0..n]` does
   * not panic), the summary holds exactly the first `limit` bytes of the abstract.
   */
  lemma SummaryAtBoundary(s: string, limit: nat, k: nat)
    requires k <= |s| && |Utf8(s[..k])| == limit && |Utf8(s)| > limit
    ensures Utf8(Summary(s, limit)) == Utf8(s)[..limit] + Utf8("...")
  {
    PrefixWithinExact(s, k);
    Utf8Append(s[..k], s[k..]);
    assert s[..k] + s[k..] == s;
    Utf8Append(s[..k], "...");
  }

  lemma {:induction false} PrefixWithinExact(s: string, k: nat)
    requires k <= |s|
    ensures PrefixWithin(s, |Utf8(s[..k])|) == s[..k]
    decreases k
  {
    if k > 0 {
      var c, tail := s[0], s[1..];
      assert s[..k] == [c] + tail[..k - 1];
      assert Utf8(s[..k]) == Utf8Char(c) + Utf8(tail[..k - 1]) by {
        assert (s[..k])[0] == c && (s[..k])[1..] == tail[..k - 1];
      }
      PrefixWithinExact(tail, k - 1);
    } else if |s| > 0 {
      assert |Utf8Char(s[0])| >= 1;
    }
  }

  lemma {:induction false} Utf8Ascii(s: string)
    requires forall i | 0 <= i < |s| :: (s[i] as int) < 0x80
    ensures |Utf8(s)| == |s|
    decreases |s|
  {
    if |s| > 0 {
      Utf8Ascii(s[1..]);
    }
  }

  /** For ASCII text, bytes are characters: the summary is the first `limit` characters. */
  lemma SummaryAscii(s: string, limit: nat)
    requires forall i | 0 <= i < |s| :: (s[i] as int) < 0x80
    ensures Summary(s, limit) == if |s| > limit then s[..limit] + "..." else s
  {
    Utf8Ascii(s);
    if |s| > limit {
      Utf8Ascii(s[..limit]);
      PrefixWithinExact(s, limit);
    }
  }

  // ----- Numbered listings (`for (i, item) in items.iter().enumerate()`)

  /**
   * The block of item `k`: its numbered entry, its body, and a blank line unless it is the
   * last item (`if i < items.len() - 1`).
   */
  function Block(items: seq<Value>, first: nat, head: Value -> string, body: Value -> seq<Line>, k: nat): seq<Line>
    requires k < |items|
  {
    [Entry(first + k, head(items[k]))] + body(items[k]) + (if k < |items| - 1 then [Blank] else [])
  }

  /** The blocks of items `k..` of a listing whose first item is numbered `first`. */
  function BlocksFrom(items: seq<Value>, first: nat, head: Value -> string, body: Value -> seq<Line>, k: nat): seq<Line>
    requires k <= |items|
    decreases |items| - k
  {
    if k == |items| then [] else Block(items, first, head, body, k) + BlocksFrom(items, first, head, body, k + 1)
  }

  function Listing(items: seq<Value>, first: nat, head: Value -> string, body: Value -> seq<Line>): seq<Line> {
    BlocksFrom(items, first, head, body, 0)
  }

  /** The loop that pushes one block per item. */
  method ListLines(items: seq<Value>, first: nat, head: Value -> string, body: Value -> seq<Line>)
    returns (lines: seq<Line>)
    ensures lines == Listing(items, first, head, body)
  {
    lines := [];
    for i := 0 to |items|
      invariant lines + BlocksFrom(items, first, head, body, i) == Listing(items, first, head, body)
    {
      var item := items[i];
      lines := lines + [Entry(first + i, head(item))];
      lines := lines + body(item);
      if i < |items| - 1 {
        lines := lines + [Blank];
      }
    }
  }

  /**
   * One turn of a listing loop: when `lines` are the blocks before item `i`, appending that
   * item's entry, its body `b` and the separator gives the blocks up to item `i + 1`.
   */
  lemma ListingStep(items: seq<Value>, first: nat, head: Value -> string, body: Value -> seq<Line>, i: nat, lines: seq<Line>, b: seq<Line>)
    requires i < |items| && b == body(items[i])
    requires lines + BlocksFrom(items, first, head, body, i) == Listing(items, first, head, body)
    ensures var sep: seq<Line> := if i < |items| - 1 then [Blank] else [];
            lines + ([Entry(first + i, head(items[i]))] + b + sep) + BlocksFrom(items, first, head, body, i + 1)
            == Listing(items, first, head, body)
  {
    var sep: seq<Line> := if i < |items| - 1 then [Blank] else [];
    var block := [Entry(first + i, head(items[i]))] + b + sep;
    assert BlocksFrom(items, first, head, body, i) == block + BlocksFrom(items, first, head, body, i + 1);
    assert lines + block + BlocksFrom(items, first, head, body, i + 1) == lines + (block + BlocksFrom(items, first, head, body, i + 1));
  }

  /** At the end of a listing loop the lines are the whole listing. */
  lemma ListingDone(items: seq<Value>, first: nat, head: Value -> string, body: Value -> seq<Line>, lines: seq<Line>)
    requires lines + BlocksFrom(items, first, head, body, |items|) == Listing(items, first, head, body)
    ensures lines == Listing(items, first, head, body)
  {
    assert BlocksFrom(items, first, head, body, |items|) == [];
    assert lines + [] == lines;
  }

  lemma InnerConcat(a: seq<Line>, b: seq<Line>)
    requires Inner(a) && Inner(b)
    ensures Inner(a + b)
  {
    forall i | 0 <= i < |a + b| ensures (a + b)[i] == if i < |a| then a[i] else b[i - |a|] {
    }
  }

  lemma FieldsOnlyConcat(a: seq<Line>, b: seq<Line>)
    requires FieldsOnly(a) && FieldsOnly(b)
    ensures FieldsOnly(a + b)
  {
    forall i | 0 <= i < |a + b| ensures (a + b)[i] == if i < |a| then a[i] else b[i - |a|] {
    }
  }

  /** Lines that may appear inside a block hold no entries. */
  lemma InnerNoEntries(lines: seq<Line>)
    requires Inner(lines)
    ensures NoEntries(lines)
  {
  }

  /**
   * A listing numbers its items `first`, `first + 1`, ... in order, one entry per item, as
   * long as the bodies hold no entries of their own.
   */
  lemma {:induction false} ListingEntries(items: seq<Value>, first: nat, head: Value -> string, body: Value -> seq<Line>, k: nat)
    requires k <= |items|
    requires forall j | 0 <= j < |items| :: NoEntries(body(items[j]))
    ensures var es := Entries(BlocksFrom(items, first, head, body, k));
            |es| == |items| - k && forall j | k <= j < |items| :: es[j - k] == (first + j, head(items[j]))
    decreases |items| - k
  {
    if k < |items| {
      ListingEntries(items, first, head, body, k + 1);
      var block, rest := Block(items, first, head, body, k), BlocksFrom(items, first, head, body, k + 1);
      BlockEntries(items, first, head, body, k);
      EntriesConcat(block, rest);
      assert BlocksFrom(items, first, head, body, k) == block + rest;
    }
  }

  /** A block holds one entry, its item's. */
  lemma BlockEntries(items: seq<Value>, first: nat, head: Value -> string, body: Value -> seq<Line>, k: nat)
    requires k < |items| && NoEntries(body(items[k]))
    ensures Entries(Block(items, first, head, body, k)) == [(first + k, head(items[k]))]
  {
    var sep: seq<Line> := if k < |items| - 1 then [Blank] else [];
    var entry := [Entry(first + k, head(items[k]))];
    EntriesConcat(entry, body(items[k]));
    EntriesConcat(entry + body(items[k]), sep);
    NoEntriesEmpty(body(items[k]));
    assert Entries(entry) == [(first + k, head(items[k]))];
    assert Entries(sep) == [];
  }

  /**
   * Lines without entries around a listing leave its numbering alone: the entries of the whole
   * are the listing's, `first`, `first + 1`, ... in order.
   */
  lemma FramedListing(pre: seq<Line>, items: seq<Value>, first: nat, head: Value -> string, body: Value -> seq<Line>, post: seq<Line>)
    requires NoEntries(pre) && NoEntries(post)
    requires forall j | 0 <= j < |items| :: NoEntries(body(items[j]))
    ensures var es := Entries(pre + Listing(items, first, head, body) + post);
            |es| == |items| && forall k | 0 <= k < |items| :: es[k] == (first + k, head(items[k]))
  {
    var listing := Listing(items, first, head, body);
    ListingEntries(items, first, head, body, 0);
    EntriesConcat(pre, listing);
    EntriesConcat(pre + listing, post);
    NoEntriesEmpty(pre);
    NoEntriesEmpty(post);
    assert Entries(pre + listing + post) == Entries(listing);
  }

  /**
   * Appending an item appends its block after a blank line, so the separator comes between
   * items and never after the last one.
   */
  lemma {:induction false} ListingSnoc(items: seq<Value>, item: Value, first: nat, head: Value -> string, body: Value -> seq<Line>)
    requires |items| > 0
    ensures Listing(items + [item], first, head, body) ==
            Listing(items, first, head, body) + [Blank, Entry(first + |items|, head(item))] + body(item)
  {
    SnocFrom(items, item, first, head, body, 0);
    var extended := items + [item];
    assert Block(extended, first, head, body, |items|) == [Entry(first + |items|, head(item))] + body(item);
  }

  lemma {:induction false} SnocFrom(items: seq<Value>, item: Value, first: nat, head: Value -> string, body: Value -> seq<Line>, k: nat)
    requires k < |items|
    ensures BlocksFrom(items + [item], first, head, body, k) ==
            BlocksFrom(items, first, head, body, k) + [Blank] + Block(items + [item], first, head, body, |items|)
    decreases |items| - k
  {
    var extended := items + [item];
    assert extended[k] == items[k];
    var last := Block(extended, first, head, body, |items|);
    if k == |items| - 1 {
      var b := Block(items, first, head, body, k);
      assert Block(extended, first, head, body, k) == b + [Blank];
      assert BlocksFrom(extended, first, head, body, k + 1) == last by {
        assert BlocksFrom(extended, first, head, body, |items| + 1) == [];
      }
      assert BlocksFrom(items, first, head, body, k) == b by {
        assert BlocksFrom(items, first, head, body, k + 1) == [];
      }
    } else {
      SnocFrom(items, item, first, head, body, k + 1);
      var b := Block(items, first, head, body, k);
      assert Block(extended, first, head, body, k) == b;
      var rest := BlocksFrom(items, first, head, body, k + 1);
      assert b + (rest + [Blank] + last) == b + rest + [Blank] + last;
    }
  }

  /**
   * A listing ends with the last item's block, which has no separator: its last line is that
   * item's entry or a line of its body.
   */
  lemma ListingLast(items: seq<Value>, first: nat, head: Value -> string, body: Value -> seq<Line>)
    requires |items| > 0
    ensures var l := Listing(items, first, head, body);
            var n := |items| - 1;
            |l| > 0 && (l[|l| - 1] == Entry(first + n, head(items[n])) || l[|l| - 1] in body(items[n]))
  {
    var n := |items| - 1;
    if n == 0 {
      assert BlocksFrom(items, first, head, body, 1) == [];
      assert Block(items, first, head, body, 0) == [Entry(first, head(items[0]))] + body(items[0]);
      assert Listing(items, first, head, body) == [Entry(first, head(items[0]))] + body(items[0]);
    } else {
      assert items[..n] + [items[n]] == items;
      ListingSnoc(items[..n], items[n], first, head, body);
    }
  }

  /**
   * A listing between lines without entries ends with its trailer when there is one; without
   * one it ends inside the last item's block, so it ends with a next-offset hint only if a body
   * holds one.
   */
  lemma FramedLast(pre: seq<Line>, items: seq<Value>, first: nat, head: Value -> string, body: Value -> seq<Line>, post: seq<Line>)
    requires |items| > 0
    requires forall j | 0 <= j < |items| :: Inner(body(items[j]))
    ensures var l := pre + Listing(items, first, head, body) + post;
            && (|post| > 0 ==> l[|l| - 1] == post[|post| - 1])
            && (|post| == 0 ==> !l[|l| - 1].Next?)
  {
    ListingLast(items, first, head, body);
    var listing := Listing(items, first, head, body);
    var l := pre + listing + post;
    if |post| == 0 {
      assert l[|l| - 1] == listing[|listing| - 1];
      var last := body(items[|items| - 1]);
      if listing[|listing| - 1] in last {
        assert Inner(last);
      }
    }
  }

  // ----- Numbered sub-entries (the representative papers of an author)

  /** The sub-entries of items `k..n`, numbered from `k + 1`, each followed by its body. */
  function Nest(items: seq<Value>, k: nat, n: nat, head: Value -> string, body: Value -> seq<Line>): seq<Line>
    requires k <= n <= |items|
    decreases n - k
  {
    if k == n then [] else [Nested(k + 1, head(items[k]))] + body(items[k]) + Nest(items, k + 1, n, head, body)
  }

  /** The loop over the first `n` items that pushes one sub-entry and its body per item. */
  method NestLines(items: seq<Value>, n: nat, head: Value -> string, body: Value -> seq<Line>) returns (lines: seq<Line>)
    requires n <= |items|
    ensures lines == Nest(items, 0, n, head, body)
  {
    lines := [];
    for i := 0 to n
      invariant lines + Nest(items, i, n, head, body) == Nest(items, 0, n, head, body)
    {
      var item := items[i];
      lines := lines + [Nested(i + 1, head(item))];
      lines := lines + body(item);
    }
  }

  /** Sub-entries are numbered `k + 1` to `n` in order, when the bodies are plain fields. */
  lemma {:induction false} NestNumbers(items: seq<Value>, k: nat, n: nat, head: Value -> string, body: Value -> seq<Line>)
    requires k <= n <= |items|
    requires forall j | 0 <= j < |items| :: FieldsOnly(body(items[j]))
    ensures var ns := NestedNumbers(Nest(items, k, n, head, body));
            |ns| == n - k && forall j | 0 <= j < n - k :: ns[j] == k + j + 1
    decreases n - k
  {
    if k < n {
      NestNumbers(items, k + 1, n, head, body);
      var first := [Nested(k + 1, head(items[k]))];
      var b := body(items[k]);
      var rest := Nest(items, k + 1, n, head, body);
      assert Nest(items, k, n, head, body) == first + (b + rest);
      NestedConcat(first, b + rest);
      NestedConcat(b, rest);
      FieldsNotNested(b);
      assert NestedNumbers(first) == [k + 1];
    }
  }

  lemma {:induction false} FieldsNotNested(lines: seq<Line>)
    requires FieldsOnly(lines)
    ensures NestedNumbers(lines) == []
    decreases |lines|
  {
    if |lines| > 0 {
      FieldsNotNested(lines[1..]);
    }
  }

  /** Sub-entries over field bodies hold only sub-entry and field lines. */
  lemma {:induction false} NestKinds(items: seq<Value>, k: nat, n: nat, head: Value -> string, body: Value -> seq<Line>)
    requires k <= n <= |items|
    requires forall j | 0 <= j < |items| :: FieldsOnly(body(items[j]))
    ensures forall i | 0 <= i < |Nest(items, k, n, head, body)| ::
              Nest(items, k, n, head, body)[i].Nested? || Nest(items, k, n, head, body)[i].Field?
    decreases n - k
  {
    if k < n {
      NestKinds(items, k + 1, n, head, body);
      var first := [Nested(k + 1, head(items[k]))];
      var b := body(items[k]);
      var rest := Nest(items, k + 1, n, head, body);
      assert FieldsOnly(b);
      var r := first + b + rest;
      assert Nest(items, k, n, head, body) == r;
      forall i | 0 <= i < |r| ensures r[i].Nested? || r[i].Field? {
        if i == 0 {
        } else if i < 1 + |b| {
          assert r[i] == b[i - 1] && b[i - 1].Field?;
        } else {
          var m := i - 1 - |b|;
          assert r[i] == rest[m];
          assert rest[m].Nested? || rest[m].Field?;
        }
      }
    }
  }
}
