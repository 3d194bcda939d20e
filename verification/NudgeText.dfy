// The text through which users steer the agent: escaping, nudge blocks and denial blocks
// (agent/src/nudge_reader.py, agent/src/hooks.py), and a parser that recovers what was printed.
module NudgeText {
  import opened Wrappers

  // ---------------------------------------------------------------- escaping

  // str.replace for a one-character pattern.
  function Replace(s: string, c: char, sub: string): string {
    if s == "" then "" else (if s[0] == c then sub else [s[0]]) + Replace(s[1..], c, sub)
  }

  // _xml_escape: four passes, the ampersand first.
  function XmlEscape(s: string): string {
    Replace(Replace(Replace(Replace(s, '&', "&amp;"), '<', "&lt;"), '>', "&gt;"), '"', "&quot;")
  }

  // The same as one pass.
  function EscapeChar(c: char): string {
    match c
    case '&' => "&amp;"
    case '<' => "&lt;"
    case '>' => "&gt;"
    case '"' => "&quot;"
    case _ => [c]
  }

  function Escape(s: string): string {
    if s == "" then "" else EscapeChar(s[0]) + Escape(s[1..])
  }

  function Entity(s: string): Option<(char, nat)> {
    if "&amp;" <= s then Some(('&', 5))
    else if "&lt;" <= s then Some(('<', 4))
    else if "&gt;" <= s then Some(('>', 4))
    else if "&quot;" <= s then Some(('"', 6))
    else None
  }

  function Unescape(s: string): string
    decreases |s|
  {
    if s == "" then ""
    else match Entity(s)
      case Some((c, n)) => [c] + Unescape(s[n..])
      case None => [s[0]] + Unescape(s[1..])
  }

  lemma {:induction false} ReplaceConcat(a: string, b: string, c: char, sub: string)
    ensures Replace(a + b, c, sub) == Replace(a, c, sub) + Replace(b, c, sub)
  {
    if a == "" {
      assert a + b == b;
    } else {
      assert (a + b)[1..] == a[1..] + b;
      ReplaceConcat(a[1..], b, c, sub);
    }
  }

  lemma {:induction false} ReplaceAbsent(s: string, c: char, sub: string)
    requires c !in s
    ensures Replace(s, c, sub) == s
  {
    if s != "" {
      ReplaceAbsent(s[1..], c, sub);
    }
  }

  function AmpFirst(c: char): string {
    if c == '&' then "&amp;" else [c]
  }

  // Sequential replacing escapes nothing twice: the four passes are one character map.
  lemma {:induction false} FourPassesAreOne(s: string)
    ensures XmlEscape(s) == Escape(s)
  {
    if s != "" {
      FourPassesAreOne(s[1..]);
      var a := Replace(s[1..], '&', "&amp;");
      var b := Replace(a, '<', "&lt;");
      var c := Replace(b, '>', "&gt;");
      var x := AmpFirst(s[0]);
      var y := Replace(x, '<', "&lt;");
      var z := Replace(y, '>', "&gt;");
      ReplaceConcat(x, a, '<', "&lt;");
      ReplaceConcat(y, b, '>', "&gt;");
      ReplaceConcat(z, c, '"', "&quot;");
      PassesOnOne(s[0]);
    }
  }

  // What each character becomes, and that each is escaped by itself.
  lemma {:induction false} EscapesAre(c: char, rest: string)
    ensures XmlEscape([c]) == match c
                              case '&' => "&amp;"
                              case '<' => "&lt;"
                              case '>' => "&gt;"
                              case '"' => "&quot;"
                              case _ => [c]
    ensures XmlEscape([c] + rest) == XmlEscape([c]) + XmlEscape(rest)
  {
    hide XmlEscape;
    FourPassesAreOne([c]);
    FourPassesAreOne(rest);
    FourPassesAreOne([c] + rest);
    assert ([c] + rest)[1..] == rest && [c][1..] == "";
    assert EscapeChar(c) + "" == EscapeChar(c);
  }

  lemma {:induction false} PassesOnOne(c: char)
    ensures Replace(Replace(Replace(AmpFirst(c), '<', "&lt;"), '>', "&gt;"), '"', "&quot;") == EscapeChar(c)
  {
    var one := AmpFirst(c);
    match c {
      case '<' =>
        assert Replace(one, '<', "&lt;") == "&lt;";
        ReplaceAbsent("&lt;", '>', "&gt;");
        ReplaceAbsent("&lt;", '"', "&quot;");
      case '>' =>
        ReplaceAbsent(one, '<', "&lt;");
        assert Replace(one, '>', "&gt;") == "&gt;";
        ReplaceAbsent("&gt;", '"', "&quot;");
      case '"' =>
        ReplaceAbsent(one, '<', "&lt;");
        ReplaceAbsent(one, '>', "&gt;");
        assert Replace(one, '"', "&quot;") == "&quot;";
      case _ =>
        ReplaceAbsent(one, '<', "&lt;");
        ReplaceAbsent(one, '>', "&gt;");
        ReplaceAbsent(one, '"', "&quot;");
    }
  }

  // No markup survives escaping.
  lemma {:induction false} EscapeHidesMarkup(s: string)
    ensures '<' !in Escape(s) && '>' !in Escape(s) && '"' !in Escape(s)
  {
    if s != "" {
      EscapeHidesMarkup(s[1..]);
    }
  }

  // Escaping can be undone, so it loses nothing.
  lemma {:induction false} UnescapeEscape(s: string)
    ensures Unescape(Escape(s)) == s
  {
    hide EscapeChar, Unescape;
    if s == "" {
      UnescapeNothing();
    } else {
      UnescapeEscape(s[1..]);
      UnescapeChar(s[0], Escape(s[1..]));
    }
  }

  lemma {:induction false} UnescapeNothing()
    ensures Unescape("") == ""
  {
  }

  lemma {:induction false} UnescapeChar(c: char, rest: string)
    ensures Unescape(EscapeChar(c) + rest) == [c] + Unescape(rest)
  {
    var text := EscapeChar(c) + rest;
    assert text[|EscapeChar(c)|..] == rest;
    if c in "&<>\"" {
      hide EscapeChar, Entity;
      EntityOf(c, rest);
      assert text != "";
    } else {
      assert Entity(text).None? by { assert text[0] != '&'; }
    }
  }

  lemma {:induction false} EntityOf(c: char, rest: string)
    requires c in "&<>\""
    ensures Entity(EscapeChar(c) + rest) == Some((c, |EscapeChar(c)|))
  {
    var t := EscapeChar(c) + rest;
    assert t[1] == EscapeChar(c)[1];
    assert EscapeChar(c) <= t;
  }

  // ---------------------------------------------------------------- blocks

  // A block is an opening tag with two quoted attributes, a body and a closing tag.
  datatype Style = Style(open: string, mid: string, close: string)

  datatype Item = Item(first: string, second: string, body: string)

  const NUDGE := Style("<user_nudge timestamp=\"", "\" nudge_id=\"", "</user_nudge>")
  const DENIAL := Style("<user_denial request_id=\"", "\" decided_at=\"", "</user_denial>")
  const TAG_END := "\">\n"

  function Block(style: Style, item: Item): string {
    style.open + XmlEscape(item.first) + style.mid + XmlEscape(item.second) + TAG_END
    + XmlEscape(item.body) + "\n" + style.close
  }

  function Join(separator: string, parts: seq<string>): string {
    if parts == [] then ""
    else if |parts| == 1 then parts[0]
    else parts[0] + separator + Join(separator, parts[1..])
  }

  function Blocks(style: Style, items: seq<Item>): seq<string> {
    seq(|items|, i requires 0 <= i < |items| => Block(style, items[i]))
  }

  function Format(style: Style, items: seq<Item>): string {
    Join("\n", Blocks(style, items))
  }

  // A nudge as read from its table.
  datatype Nudge = Nudge(id: string, message: string, createdAt: string)

  function NudgeItems(nudges: seq<Nudge>): seq<Item> {
    seq(|nudges|, i requires 0 <= i < |nudges| => Item(nudges[i].createdAt, nudges[i].id, nudges[i].message))
  }

  // The text of one nudge, as it stands in the message.
  function NudgeBlock(nudge: Nudge): string {
    "<user_nudge timestamp=\"" + XmlEscape(nudge.createdAt) + "\" nudge_id=\"" + XmlEscape(nudge.id) + "\">\n"
    + XmlEscape(nudge.message) + "\n</user_nudge>"
  }

  function NudgeBlocks(nudges: seq<Nudge>): seq<string> {
    seq(|nudges|, i requires 0 <= i < |nudges| => NudgeBlock(nudges[i]))
  }

  lemma {:induction false} NudgeBlocksAre(nudges: seq<Nudge>)
    ensures NudgeBlocks(nudges) == Blocks(NUDGE, NudgeItems(nudges))
  {
    hide XmlEscape;
    forall i | 0 <= i < |nudges| ensures NudgeBlock(nudges[i]) == Blocks(NUDGE, NudgeItems(nudges))[i] {
      var n := nudges[i];
      assert NudgeItems(nudges)[i] == Item(n.createdAt, n.id, n.message);
      TailOfBlock(NUDGE.open + XmlEscape(n.createdAt) + NUDGE.mid + XmlEscape(n.id) + TAG_END + XmlEscape(n.message),
                  NUDGE.close);
    }
  }

  lemma {:induction false} TailOfBlock(head: string, close: string)
    ensures head + "\n" + close == head + ("\n" + close)
  {
  }

  method FormatAsUserMessage(nudges: seq<Nudge>) returns (text: string)
    ensures text == Format(NUDGE, NudgeItems(nudges)) == Join("\n", NudgeBlocks(nudges))
  {
    hide NudgeBlock, Block;
    NudgeBlocksAre(nudges);
    if nudges == [] {
      assert NudgeBlocks(nudges) == [];
      return "";
    }
    var blocks: seq<string> := [];
    for i := 0 to |nudges|
      invariant blocks == NudgeBlocks(nudges)[..i]
    {
      blocks := blocks + [NudgeBlock(nudges[i])];
    }
    assert blocks == NudgeBlocks(nudges);
    text := Join("\n", blocks);
  }

  // ---------------------------------------------------------------- recovering what was printed

  function Until(s: string, c: char): nat {
    if s == "" || s[0] == c then 0 else 1 + Until(s[1..], c)
  }

  function Expect(s: string, literal: string): Option<string> {
    if literal <= s then Some(s[|literal|..]) else None
  }

  // One field: the text up to a quote or a tag, and what follows.
  function Field(s: string, stop: char): (string, string)
    ensures |Field(s, stop).1| <= |s|
  {
    UntilBound(s, stop);
    (s[..Until(s, stop)], s[Until(s, stop)..])
  }

  lemma {:induction false} UntilBound(s: string, c: char)
    ensures Until(s, c) <= |s|
  {
    if s != "" && s[0] != c {
      UntilBound(s[1..], c);
    }
  }

  function ParseBlock(style: Style, s: string): (r: Option<(Item, string)>)
    requires style.open != ""
    ensures r.Some? ==> |r.value.1| < |s|
  {
    match Expect(s, style.open)
    case None => None
    case Some(s1) =>
      var (first, s2) := Field(s1, '"');
      match Expect(s2, style.mid)
      case None => None
      case Some(s3) =>
        var (second, s4) := Field(s3, '"');
        match Expect(s4, TAG_END)
        case None => None
        case Some(s5) =>
          var (body, s6) := Field(s5, '<');
          match Expect(s6, style.close)
          case None => None
          case Some(rest) =>
            if body == "" || body[|body| - 1] != '\n' then None
            else Some((Item(Unescape(first), Unescape(second), Unescape(body[..|body| - 1])), rest))
  }

  // As many blocks as follow one another, and the rest of the text.
  function ParseBlocks(style: Style, s: string): (seq<Item>, string)
    requires style.open != ""
    decreases |s|
  {
    match ParseBlock(style, s)
    case None => ([], s)
    case Some((item, rest)) =>
      if "\n" + style.open <= rest then
        var (more, end) := ParseBlocks(style, rest[1..]);
        ([item] + more, end)
      else ([item], rest)
  }

  predicate WellStyled(style: Style) {
    && style.open != "" && style.mid != "" && style.mid[0] == '"'
    && style.close != "" && style.close[0] == '<'
  }

  lemma {:induction false} ExpectFinds(literal: string, rest: string)
    ensures Expect(literal + rest, literal) == Some(rest)
  {
    assert literal <= literal + rest;
  }

  lemma {:induction false} UntilFinds(s: string, stop: char, rest: string)
    requires stop !in s && rest != "" && rest[0] == stop
    ensures Until(s + rest, stop) == |s|
  {
    if s == "" {
      assert s + rest == rest;
    } else {
      assert (s + rest)[1..] == s[1..] + rest;
      UntilFinds(s[1..], stop, rest);
    }
  }

  lemma {:induction false} FieldFinds(s: string, stop: char, rest: string)
    requires stop !in s && rest != "" && rest[0] == stop
    ensures Field(s + rest, stop) == (s, rest)
  {
    UntilFinds(s, stop, rest);
  }

  // Whatever the fields contain, a block is read back, together with what follows it.
  lemma {:induction false} ParsePrintedBlock(style: Style, item: Item, rest: string)
    requires WellStyled(style)
    ensures ParseBlock(style, Block(style, item) + rest) == Some((item, rest))
  {
    hide Unescape, XmlEscape, Escape, Field, Expect;
    var a, b, c := XmlEscape(item.first), XmlEscape(item.second), XmlEscape(item.body) + "\n";
    FieldRoundTrip(item.first);
    FieldRoundTrip(item.second);
    FieldRoundTrip(item.body);
    var s6 := style.close + rest;
    var s4 := TAG_END + (c + s6);
    var s2 := style.mid + (b + s4);
    assert Block(style, item) + rest == style.open + (a + s2);
    ExpectFinds(style.open, a + s2);
    FieldFinds(a, '"', s2);
    ExpectFinds(style.mid, b + s4);
    FieldFinds(b, '"', s4);
    ExpectFinds(TAG_END, c + s6);
    FieldFinds(c, '<', s6);
    ExpectFinds(style.close, rest);
    assert c[..|c| - 1] == XmlEscape(item.body);
  }

  lemma {:induction false} FieldRoundTrip(s: string)
    ensures Unescape(XmlEscape(s)) == s && '<' !in XmlEscape(s) && '"' !in XmlEscape(s) && '>' !in XmlEscape(s)
  {
    FourPassesAreOne(s);
    UnescapeEscape(s);
    EscapeHidesMarkup(s);
  }

  // Any number of blocks is read back, up to a text that does not start another one.
  lemma {:induction false} ParsePrinted(style: Style, items: seq<Item>, rest: string)
    requires WellStyled(style) && items != [] && !("\n" + style.open <= rest)
    ensures ParseBlocks(style, Format(style, items) + rest) == (items, rest)
  {
    hide ParseBlock, Block, Format;
    var head, tail := Block(style, items[0]), items[1..];
    assert items == [items[0]] + tail;
    FormatStep(style, items);
    if tail == [] {
      assert items == [items[0]];
      assert Format(style, items) == head;
      ParsePrintedBlock(style, items[0], rest);
      assert ParseBlock(style, head + rest) == Some((items[0], rest));
    } else {
      var follow := Format(style, tail) + rest;
      assert Format(style, items) + rest == head + ("\n" + follow);
      ParsePrintedBlock(style, items[0], "\n" + follow);
      StartsWithOpen(style, tail, rest);
      ParsePrinted(style, tail, rest);
      assert ("\n" + follow)[1..] == follow;
      assert ParseBlock(style, head + ("\n" + follow)) == Some((items[0], "\n" + follow));
    }
  }

  lemma {:induction false} FormatStep(style: Style, items: seq<Item>)
    requires items != []
    ensures Format(style, items)
         == Block(style, items[0]) + if |items| == 1 then "" else "\n" + Format(style, items[1..])
  {
    hide Block;
    var blocks := Blocks(style, items);
    if |items| == 1 {
      assert blocks == [Block(style, items[0])];
    } else {
      assert blocks[1..] == Blocks(style, items[1..]);
      assert blocks[0] + "\n" + Join("\n", blocks[1..]) == blocks[0] + ("\n" + Join("\n", blocks[1..]));
    }
  }

  lemma {:induction false} StartsWithOpen(style: Style, items: seq<Item>, rest: string)
    requires items != []
    ensures "\n" + style.open <= "\n" + (Format(style, items) + rest)
  {
    FormatStep(style, items);
    assert style.open <= Block(style, items[0]);
  }

  lemma {:induction false} ParseAll(style: Style, items: seq<Item>)
    requires WellStyled(style)
    ensures ParseBlocks(style, Format(style, items)) == (items, "")
  {
    if items == [] {
      assert Blocks(style, items) == [];
    } else {
      hide Format;
      ParsePrinted(style, items, "");
      assert Format(style, items) + "" == Format(style, items);
    }
  }

  // ---------------------------------------------------------------- main results

  // The message is unambiguous: a left inverse recovers every nudge, in order, so two different
  // lists of nudges never print the same.
  lemma {:induction false} NudgesAreRecovered(nudges: seq<Nudge>)
    ensures ParseBlocks(NUDGE, Format(NUDGE, NudgeItems(nudges))) == (NudgeItems(nudges), "")
  {
    ParseAll(NUDGE, NudgeItems(nudges));
  }

  lemma {:induction false} FormatIsInjective(a: seq<Nudge>, b: seq<Nudge>)
    requires Format(NUDGE, NudgeItems(a)) == Format(NUDGE, NudgeItems(b))
    ensures a == b
  {
    hide Format, ParseBlocks;
    NudgesAreRecovered(a);
    NudgesAreRecovered(b);
    assert NudgeItems(a) == NudgeItems(b);
    assert |NudgeItems(a)| == |a| && |NudgeItems(b)| == |b|;
    forall i | 0 <= i < |a| ensures a[i] == b[i] {
      assert NudgeItems(a)[i] == NudgeItems(b)[i];
    }
  }

  // The text of a turn: nudges first, then denials, either of which may be missing.
  function Chunks(nudges: seq<Item>, denials: seq<Item>): seq<string> {
    (if nudges == [] then [] else [Format(NUDGE, nudges)]) + (if denials == [] then [] else [Format(DENIAL, denials)])
  }

  function ReadTurn(text: string): (seq<Item>, seq<Item>) {
    var (nudges, rest) := ParseBlocks(NUDGE, text);
    (nudges, ParseBlocks(DENIAL, if "\n\n" <= rest then rest[2..] else rest).0)
  }

  lemma {:induction false} DenialsAreNoNudges(denials: seq<Item>)
    ensures ParseBlocks(NUDGE, Format(DENIAL, denials)) == ([], Format(DENIAL, denials))
    ensures !("\n\n" <= Format(DENIAL, denials))
  {
    if denials == [] {
      assert Blocks(DENIAL, denials) == [];
    } else {
      hide Block, Format;
      StartsWithOpen(DENIAL, denials, "");
      var text := Format(DENIAL, denials);
      assert ("\n" + (text + ""))[6] == text[5];
      assert ("\n" + (text + ""))[1] == text[0];
      assert ("\n" + (text + ""))[7] == text[6];
      assert text[6] == DENIAL.open[6] != NUDGE.open[6];
    }
  }

  // Nudges and denials of one turn, as the Stop hook joins them, are all recovered and told apart.
  lemma {:induction false} TurnIsRecovered(nudges: seq<Item>, denials: seq<Item>)
    ensures ReadTurn(Join("\n\n", Chunks(nudges, denials))) == (nudges, denials)
  {
    hide Format, ParseBlocks;
    var n, d := Format(NUDGE, nudges), Format(DENIAL, denials);
    ParseAll(NUDGE, nudges);
    ParseAll(DENIAL, denials);
    if nudges == [] {
      DenialsAreNoNudges(denials);
      NothingPrintsNothing(DENIAL);
    } else if denials == [] {
      NothingPrintsNothing(DENIAL);
    } else {
      var rest := "\n\n" + d;
      assert Chunks(nudges, denials) == [n, d];
      assert [n, d][1..] == [d] && Join("\n\n", [d]) == d;
      assert Join("\n\n", [n, d]) == n + rest;
      assert rest[1] != ("\n" + NUDGE.open)[1];
      ParsePrinted(NUDGE, nudges, rest);
      assert rest[2..] == d;
    }
  }

  lemma {:induction false} NothingPrintsNothing(style: Style)
    ensures Format(style, []) == ""
  {
    assert Blocks(style, []) == [];
  }
}
