/**
 * The report body: for each entry a heading, a table of summary rows and
 * the links of each query, at most 30 per query, with every piece of data
 * HTML-escaped. The body is built as a list of parts that is then joined;
 * a part is described here by what it shows (`Part`) and rendered by `Markup`.
 */
module Report {
  import opened Text

  /** A report entry: title, summary rows in their order, and query results in their order. */
  datatype Entry = Entry(title: string, summary: seq<(string, string)>, dork: seq<(string, seq<string>)>)

  const MaxLinksShown := 30

  // ---------------------------------------------------------------------------
  // Escaping

  /** The characters that `html.escape` replaces, besides `&`. */
  predicate IsMarkup(c: char) {
    c == '<' || c == '>' || c == '"' || c == '\''
  }

  /** No character of `s` can open a tag or close an attribute value. */
  predicate SafeText(s: string) {
    forall i :: 0 <= i < |s| ==> !IsMarkup(s[i])
  }

  function EscapeChar(c: char): string
  {
    match c
    case '&' => "&amp;"
    case '<' => "&lt;"
    case '>' => "&gt;"
    case '"' => "&quot;"
    case '\'' => "&#x27;"
    case _ => [c]
  }

  /** `html.escape(s)`: each of `& < > " '` becomes its character reference. */
  function Escape(s: string): string
  {
    if s == [] then [] else EscapeChar(s[0]) + Escape(s[1..])
  }

  /** Escaped text holds no markup character and is at least as long as the original. */
  lemma {:induction false} EscapeSafe(s: string)
    ensures SafeText(Escape(s)) && |Escape(s)| >= |s|
  {
    if s != [] {
      EscapeSafe(s[1..]);
      var c := EscapeChar(s[0]);
      assert SafeText(c) && |c| >= 1;
    }
  }

  /** The character at the start of `s` and how many characters spell it: one of the five references, or one plain character. */
  function DecodeAt(s: string): (r: (char, nat))
    requires s != []
    ensures 1 <= r.1 <= |s|
  {
    if "&amp;" <= s then ('&', 5)
    else if "&lt;" <= s then ('<', 4)
    else if "&gt;" <= s then ('>', 4)
    else if "&quot;" <= s then ('"', 6)
    else if "&#x27;" <= s then ('\'', 6)
    else (s[0], 1)
  }

  /** Reads the five character references back; the inverse of Escape. */
  function Unescape(s: string): string
    decreases |s|
  {
    if s == [] then [] else var (c, n) := DecodeAt(s); [c] + Unescape(s[n..])
  }

  /** The escaped form of one character is read back as that character, whatever follows it. */
  lemma UnescapeOneChar(c: char, rest: string)
    ensures DecodeAt(EscapeChar(c) + rest) == (c, |EscapeChar(c)|)
  {
    var e := EscapeChar(c) + rest;
    if c == '&' {
      assert "&amp;" <= e;
    } else if c == '<' {
      assert e[1] == 'l' && "&lt;" <= e;
    } else if c == '>' {
      assert e[1] == 'g' && "&gt;" <= e;
    } else if c == '"' {
      assert e[1] == 'q' && "&quot;" <= e;
    } else if c == '\'' {
      assert e[1] == '#' && "&#x27;" <= e;
    } else {
      assert e[0] == c;
    }
  }

  /** Escaping loses nothing: the original text is read back from its escaped form. */
  lemma {:induction false} EscapeRoundTrip(s: string)
    ensures Unescape(Escape(s)) == s
  {
    if s != [] {
      var head, rest := EscapeChar(s[0]), Escape(s[1..]);
      EscapeRoundTrip(s[1..]);
      UnescapeOneChar(s[0], rest);
      assert (head + rest)[|head|..] == rest;
      assert s == [s[0]] + s[1..];
    }
  }

  /** Text without `&` or markup characters is left as it is. */
  lemma {:induction false} EscapePlain(s: string)
    requires SafeText(s) && forall i :: 0 <= i < |s| ==> s[i] != '&'
    ensures Escape(s) == s
  {
    if s != [] {
      EscapePlain(s[1..]);
      assert s == [s[0]] + s[1..];
    }
  }

  // ---------------------------------------------------------------------------
  // Parts

  /** One element of the list of parts the body is joined from. */
  datatype Part =
    | Heading(title: string)
    | TableStart
    | Row(key: string, value: string)
    | TableEnd
    | DorkHeading
    | QueryStart(query: string)
    | Link(url: string)
    | ListEnd

  // The fixed markup around the data of each part.
  const TableStartTag := "<table border='1' cellpadding='6' style='border-collapse:collapse'>"
  const RowOpen := "<tr><th style='text-align:left'>"
  const RowMid := "</th><td>"
  const RowClose := "</td></tr>"
  const DorkHeadingTag := "<h3>Dorking</h3>"
  const LinkOpen := "<li><a href='"
  const LinkMid := "' target='_blank'>"
  const LinkClose := "</a></li>"

  /** The HTML of a part; all data passes through Escape. */
  function Markup(p: Part): string
  {
    match p
    case Heading(t) => "<h2>" + Escape(t) + "</h2>"
    case TableStart => TableStartTag
    case Row(k, v) => RowOpen + Escape(k) + RowMid + Escape(v) + RowClose
    case TableEnd => "</table>"
    case DorkHeading => DorkHeadingTag
    case QueryStart(q) => "<b>" + Escape(q) + "</b><ul>"
    case Link(u) => LinkOpen + Escape(u) + LinkMid + Escape(u) + LinkClose
    case ListEnd => "</ul>"
  }

  function RowParts(rows: seq<(string, string)>): seq<Part>
  {
    if rows == [] then []
    else RowParts(rows[..|rows| - 1]) + [Row(rows[|rows| - 1].0, rows[|rows| - 1].1)]
  }

  function LinkParts(urls: seq<string>): seq<Part>
  {
    if urls == [] then [] else LinkParts(urls[..|urls| - 1]) + [Link(urls[|urls| - 1])]
  }

  /** The links of a query that are shown: the first 30. */
  function Shown(urls: seq<string>): seq<string>
  {
    if |urls| <= MaxLinksShown then urls else urls[..MaxLinksShown]
  }

  function QueryParts(q: string, urls: seq<string>): seq<Part>
  {
    [QueryStart(q)] + LinkParts(Shown(urls)) + [ListEnd]
  }

  function DorkParts(dork: seq<(string, seq<string>)>): seq<Part>
  {
    if dork == [] then []
    else DorkParts(dork[..|dork| - 1]) + QueryParts(dork[|dork| - 1].0, dork[|dork| - 1].1)
  }

  function EntryParts(e: Entry): seq<Part>
  {
    [Heading(e.title), TableStart] + RowParts(e.summary) + [TableEnd, DorkHeading] + DorkParts(e.dork)
  }

  /** The parts of the whole body, entry after entry. */
  function ReportParts(entries: seq<Entry>): seq<Part>
  {
    if entries == [] then [] else ReportParts(entries[..|entries| - 1]) + EntryParts(entries[|entries| - 1])
  }

  /** The HTML of each part, in order. */
  function Rendered(parts: seq<Part>): seq<string>
  {
    if parts == [] then [] else Rendered(parts[..|parts| - 1]) + [Markup(parts[|parts| - 1])]
  }

  // The fixed text of the document around the body.
  const DocumentHead := "<!doctype html><html><head><meta charset='utf-8'><title>OSINT v3 Report</title></head><body><h1>OSINT v3 Report</h1><p>Generated: "
  const DocumentMid := "</p>"
  const DocumentTail := "</body></html>"

  /** The complete document around a body; the generation time is given. */
  function Document(generated: string, body: string): string
  {
    DocumentHead + generated + DocumentMid + body + DocumentTail
  }

  // ---------------------------------------------------------------------------
  // Properties

  /** One link part per link, in order. */
  lemma {:induction false} LinkPartsMeaning(urls: seq<string>)
    ensures |LinkParts(urls)| == |urls|
    ensures forall i :: 0 <= i < |urls| ==> LinkParts(urls)[i] == Link(urls[i])
  {
    if urls != [] {
      LinkPartsMeaning(urls[..|urls| - 1]);
    }
  }

  /** One row part per summary entry, in order. */
  lemma {:induction false} RowPartsMeaning(rows: seq<(string, string)>)
    ensures |RowParts(rows)| == |rows|
    ensures forall i :: 0 <= i < |rows| ==> RowParts(rows)[i] == Row(rows[i].0, rows[i].1)
  {
    if rows != [] {
      RowPartsMeaning(rows[..|rows| - 1]);
    }
  }

  /** The query blocks of a result map follow its entries in order: the blocks of a longer map extend those of a shorter one. */
  lemma {:induction false} DorkPartsAppend(d1: seq<(string, seq<string>)>, d2: seq<(string, seq<string>)>)
    ensures DorkParts(d1 + d2) == DorkParts(d1) + DorkParts(d2)
    decreases |d2|
  {
    if d2 == [] {
      assert d1 + d2 == d1;
    } else {
      var init, last := d2[..|d2| - 1], d2[|d2| - 1];
      calc {
        DorkParts(d1 + d2);
        == { InitOfAppend(d1, d2); }
        DorkParts(d1 + init) + QueryParts(last.0, last.1);
        == { DorkPartsAppend(d1, init); }
        DorkParts(d1) + DorkParts(init) + QueryParts(last.0, last.1);
        DorkParts(d1) + DorkParts(d2);
      }
    }
  }

  /**
   * An entry is its heading, the table start, one row per summary entry,
   * the table end and the dorking heading, then its query blocks.
   */
  lemma EntryPartsLayout(e: Entry)
    ensures var p, n := EntryParts(e), |e.summary|;
      && |p| == n + 4 + |DorkParts(e.dork)|
      && p[0] == Heading(e.title) && p[1] == TableStart
      && (forall i :: 0 <= i < n ==> p[i + 2] == Row(e.summary[i].0, e.summary[i].1))
      && p[n + 2] == TableEnd && p[n + 3] == DorkHeading
      && p[n + 4..] == DorkParts(e.dork)
  {
    RowPartsMeaning(e.summary);
  }

  /**
   * A query block shows the first 30 stored links in order, and no others,
   * between its opening part and its closing part.
   */
  lemma QueryPartsCapped(q: string, urls: seq<string>)
    ensures var n := if |urls| <= MaxLinksShown then |urls| else MaxLinksShown;
      && |QueryParts(q, urls)| == n + 2
      && QueryParts(q, urls)[0] == QueryStart(q)
      && QueryParts(q, urls)[n + 1] == ListEnd
      && forall i :: 0 <= i < n ==> QueryParts(q, urls)[i + 1] == Link(urls[i])
  {
    LinkPartsMeaning(Shown(urls));
  }

  /** Rendering works part by part. */
  lemma {:induction false} RenderedAppend(x: seq<Part>, y: seq<Part>)
    ensures Rendered(x + y) == Rendered(x) + Rendered(y)
    decreases |y|
  {
    if y != [] {
      var init, last := y[..|y| - 1], y[|y| - 1];
      calc {
        Rendered(x + y);
        == { InitOfAppend(x, y); }
        Rendered(x + init) + [Markup(last)];
        == { RenderedAppend(x, init); }
        Rendered(x) + Rendered(init) + [Markup(last)];
        Rendered(x) + Rendered(y);
      }
    } else {
      assert x + y == x;
    }
  }

  lemma RenderedPair(p: Part, q: Part)
    ensures Rendered([p, q]) == [Markup(p), Markup(q)]
  {
    assert Rendered([p]) == [Markup(p)] by {
      assert [p][..0] == [];
    }
    assert Rendered([p, q]) == Rendered([p]) + [Markup(q)] by {
      assert [p, q][..1] == [p];
    }
  }

  /** The text shown for a link, and the address it points to, both read back as the stored URL. */
  lemma LinkMarkupReadsBack(u: string)
    ensures var e := Escape(u);
      && Markup(Link(u)) == LinkOpen + e + LinkMid + e + LinkClose
      && SafeText(e) && Unescape(e) == u
  {
    EscapeSafe(u);
    EscapeRoundTrip(u);
  }

  // ---------------------------------------------------------------------------
  // The renderer

  /** The HTML parts of one query block: its opening, its first 30 links, its closing. */
  method RenderQuery(q: string, urls: seq<string>) returns (html: seq<string>)
    ensures html == Rendered(QueryParts(q, urls))
  {
    var shown := Shown(urls);
    var links: seq<string> := [];
    for k := 0 to |shown|
      invariant links == Rendered(LinkParts(shown[..k]))
    {
      assert shown[..k + 1][..k] == shown[..k];
      ghost var before := LinkParts(shown[..k]);
      assert (before + [Link(shown[k])])[..|before|] == before;
      links := links + [Markup(Link(shown[k]))];
    }
    assert shown[..|shown|] == shown;
    RenderedAppend([QueryStart(q)], LinkParts(shown));
    RenderedAppend([QueryStart(q)] + LinkParts(shown), [ListEnd]);
    html := [Markup(QueryStart(q))] + links + [Markup(ListEnd)];
  }

  /** The HTML rows of a summary table, in order. */
  method RenderRows(summary: seq<(string, string)>) returns (rows: seq<string>)
    ensures rows == Rendered(RowParts(summary))
  {
    rows := [];
    for j := 0 to |summary|
      invariant rows == Rendered(RowParts(summary[..j]))
    {
      assert summary[..j + 1][..j] == summary[..j];
      var (k, v) := summary[j];
      ghost var before := RowParts(summary[..j]);
      assert (before + [Row(k, v)])[..|before|] == before;
      rows := rows + [Markup(Row(k, v))];
    }
    assert summary[..|summary|] == summary;
  }

  /** The HTML of every query block, in order. */
  method RenderDork(dork: seq<(string, seq<string>)>) returns (blocks: seq<string>)
    ensures blocks == Rendered(DorkParts(dork))
  {
    blocks := [];
    for j := 0 to |dork|
      invariant blocks == Rendered(DorkParts(dork[..j]))
    {
      assert dork[..j + 1][..j] == dork[..j];
      var block := RenderQuery(dork[j].0, dork[j].1);
      RenderedAppend(DorkParts(dork[..j]), QueryParts(dork[j].0, dork[j].1));
      blocks := blocks + block;
    }
    assert dork[..|dork|] == dork;
  }

  /** The HTML parts of one entry: heading, summary table, then one block per query. */
  method RenderEntry(e: Entry) returns (html: seq<string>)
    ensures html == Rendered(EntryParts(e))
  {
    var rows := RenderRows(e.summary);
    var blocks := RenderDork(e.dork);
    var head := [Heading(e.title), TableStart];
    var tail := [TableEnd, DorkHeading];
    RenderedAppend(head, RowParts(e.summary));
    RenderedAppend(head + RowParts(e.summary), tail);
    RenderedAppend(head + RowParts(e.summary) + tail, DorkParts(e.dork));
    RenderedPair(Heading(e.title), TableStart);
    RenderedPair(TableEnd, DorkHeading);
    html := [Markup(Heading(e.title)), Markup(TableStart)] + rows
      + [Markup(TableEnd), Markup(DorkHeading)] + blocks;
  }

  /**
   * `generate_html_report`, the body: the parts of every entry are appended
   * in order, then joined.
   */
  method RenderBody(entries: seq<Entry>) returns (body: string)
    ensures body == Concat(Rendered(ReportParts(entries)))
  {
    var parts: seq<string> := [];
    for i := 0 to |entries|
      invariant parts == Rendered(ReportParts(entries[..i]))
    {
      assert entries[..i + 1][..i] == entries[..i];
      var section := RenderEntry(entries[i]);
      RenderedAppend(ReportParts(entries[..i]), EntryParts(entries[i]));
      parts := parts + section;
    }
    assert entries[..|entries|] == entries;
    body := Join(parts);
  }

  /** `"".join(parts)`. */
  method Join(parts: seq<string>) returns (s: string)
    ensures s == Concat(parts)
  {
    s := [];
    for i := 0 to |parts|
      invariant s == Concat(parts[..i])
    {
      assert parts[..i + 1][..i] == parts[..i];
      s := s + parts[i];
    }
    assert parts[..|parts|] == parts;
  }
}
