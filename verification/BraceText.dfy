/** Reading brace text: `parse` of `_onecdec/upgrade_rules.py`, and that it and `render` undo each other. */
module BraceText {
  import opened Prelude
  import opened BraceTree

  /** The characters `str.strip` removes. */
  predicate IsSpace(c: char) {
    || '\t' <= c <= '\r' || c == ' ' || '\U{1C}' <= c <= '\U{1F}'
    || c == '\U{85}' || c == '\U{A0}' || c == '\U{1680}' || '\U{2000}' <= c <= '\U{200A}'
    || c == '\U{2028}' || c == '\U{2029}' || c == '\U{202F}' || c == '\U{205F}' || c == '\U{3000}'
  }

  function StripLeft(s: string): string {
    if s != "" && IsSpace(s[0]) then StripLeft(s[1..]) else s
  }

  function StripRight(s: string): string {
    if s != "" && IsSpace(s[|s| - 1]) then StripRight(s[..|s| - 1]) else s
  }

  function Strip(s: string): string {
    StripRight(StripLeft(s))
  }

  // ---- the reader

  datatype Parsed =
    | Done(node: Node, rest: string)
    | Unterminated
    | Crash  // a quote right after a nested list: the source appends to None

  /** From inside a list: `items` so far, the text of the current leaf (None right after a nested list). */
  function ParseBody(s: string, items: seq<Node>, cur: Option<string>, quoted: bool): (r: Parsed)
    requires quoted ==> cur.Some?
    ensures r.Done? ==> |r.rest| < |s|
    decreases |s|
  {
    if s == "" then Unterminated
    else if quoted then
      if s[0] == '"' && |s| > 1 && s[1] == '"' then ParseBody(s[2..], items, Some(cur.value + "\"\""), true)
      else ParseBody(s[1..], items, Some(cur.value + [s[0]]), s[0] != '"')
    else if s[0] == '"' then
      if cur.None? then Crash else ParseBody(s[1..], items, Some(cur.value + "\""), true)
    else if s[0] == '{' then
      match ParseBody(s[1..], [], Some(""), false)
      case Done(node, rest) => ParseBody(rest, items + [node], None, false)
      case Unterminated => Unterminated
      case Crash => Crash
    else if s[0] == ',' || s[0] == '}' then
      var all := if cur.Some? then items + [Leaf(Strip(cur.value))] else items;
      if s[0] == '}' then Done(List(all), s[1..]) else ParseBody(s[1..], all, Some(""), false)
    else if s[0] == '\r' || s[0] == '\n' then ParseBody(s[1..], items, cur, false)
    else ParseBody(s[1..], items, Some((if cur.Some? then cur.value else "") + [s[0]]), false)
  }

  /** `parse` on text that starts at its opening brace. */
  function Parse(s: string): Parsed
    requires s != "" && s[0] == '{'
  {
    ParseBody(s[1..], [], Some(""), false)
  }

  // ---- the trees the text can hold

  predicate IsSpecial(c: char) {
    c == ',' || c == '{' || c == '}' || c == '\r' || c == '\n'
  }

  /** Quote parity after `c` from parity `q`; None when a special character stands outside quotes. */
  function Run(c: string, q: bool): Option<bool> {
    if c == "" then Some(q)
    else if !q && IsSpecial(c[0]) then None
    else Run(c[1..], if c[0] == '"' then !q else q)
  }

  /** Trimmed, balanced quotes, nothing special outside them. */
  predicate LeafOk(text: string) {
    Run(text, false) == Some(false) && Strip(text) == text
  }

  predicate WellFormed(node: Node)
    decreases node
  {
    match node
    case Leaf(text) => LeafOk(text)
    case List(items) => items != [] && forall k :: 0 <= k < |items| ==> WellFormed(items[k])
  }

  // ---- printing, then reading

  lemma {:induction false} LeafIsRead(text: string, s: string, items: seq<Node>, cur: string, q: bool)
    requires Run(text, q) == Some(false) && s != "" && s[0] != '"'
    ensures ParseBody(text + s, items, Some(cur), q) == ParseBody(s, items, Some(cur + text), false)
    decreases |text|
  {
    if text == "" {
      assert text + s == s && cur + text == cur;
    } else if q && text[0] == '"' && |text| > 1 && text[1] == '"' {
      assert text[1..][1..] == text[2..] && Run(text[1..], false) == Run(text[2..], true);
      LeafIsRead(text[2..], s, items, cur + "\"\"", true);
      assert (text + s)[2..] == text[2..] + s && cur + "\"\"" + text[2..] == cur + text;
    } else {
      LeafIsRead(text[1..], s, items, cur + [text[0]], if text[0] == '"' then !q else q);
      assert (text + s)[1..] == text[1..] + s && cur + [text[0]] + text[1..] == cur + text;
      assert q && text == "\"" ==> (text + s)[1] == s[0];
    }
  }

  /** The text after one printed member: a comma and the others, or the closing brace. */
  function After(items: seq<Node>, rest: string): string {
    if items == [] then "}" + rest else "," + CommaJoin(Renders(items)) + "}" + rest
  }

  lemma JoinCons(first: string, others: seq<string>)
    ensures CommaJoin([first] + others) == if others == [] then first else first + "," + CommaJoin(others)
  {
    assert ([first] + others)[1..] == others;
  }

  lemma RegroupList(a: string, b: string, c: string)
    ensures a + "," + b + "}" + c == a + ("," + b + "}" + c) && a + "}" + c == a + ("}" + c)
  {
  }

  lemma JoinedFirst(items: seq<Node>, rest: string)
    requires items != []
    ensures CommaJoin(Renders(items)) + "}" + rest == Render(items[0]) + After(items[1..], rest)
  {
    JoinCons(Render(items[0]), Renders(items[1..]));
    RegroupList(Render(items[0]), CommaJoin(Renders(items[1..])), rest);
  }

  lemma AfterIsRead(items: seq<Node>, rest: string, done: seq<Node>, cur: Option<string>)
    ensures var all := if cur.Some? then done + [Leaf(Strip(cur.value))] else done;
            ParseBody(After(items, rest), done, cur, false)
            == if items == [] then Done(List(all), rest)
               else ParseBody(CommaJoin(Renders(items)) + "}" + rest, all, Some(""), false)
  {
    var s := After(items, rest);
    assert s[1..] == if items == [] then rest else CommaJoin(Renders(items)) + "}" + rest;
  }

  /** The members of a list, up to and including its brace, are read as those members. */
  predicate AreRead(items: seq<Node>, done: seq<Node>, rest: string) {
    ParseBody(CommaJoin(Renders(items)) + "}" + rest, done, Some(""), false) == Done(List(done + items), rest)
  }

  lemma LeafMemberIsRead(items: seq<Node>, done: seq<Node>, rest: string)
    requires items != [] && items[0].Leaf? && LeafOk(items[0].text)
    ensures ParseBody(CommaJoin(Renders(items)) + "}" + rest, done, Some(""), false)
         == if |items| == 1 then Done(List(done + [items[0]]), rest)
            else ParseBody(CommaJoin(Renders(items[1..])) + "}" + rest, done + [items[0]], Some(""), false)
  {
    var text := items[0].text;
    JoinedFirst(items, rest);
    LeafIsRead(text, After(items[1..], rest), done, "", false);
    assert "" + text == text;
    AfterIsRead(items[1..], rest, done, Some(text));
  }

  lemma NestedIsRead(body: string, node: Node, after: string, done: seq<Node>)
    requires ParseBody(body, [], Some(""), false) == Done(node, after)
    ensures ParseBody("{" + body, done, Some(""), false) == ParseBody(after, done + [node], None, false)
  {
    assert ("{" + body)[1..] == body;
  }

  lemma ListMemberText(items: seq<Node>, rest: string) returns (body: string)
    requires items != [] && items[0].List?
    ensures body == CommaJoin(Renders(items[0].items)) + "}" + After(items[1..], rest)
    ensures CommaJoin(Renders(items)) + "}" + rest == "{" + body
  {
    body := CommaJoin(Renders(items[0].items)) + "}" + After(items[1..], rest);
    JoinedFirst(items, rest);
  }

  lemma ListMemberIsRead(items: seq<Node>, done: seq<Node>, rest: string)
    requires items != [] && items[0].List? && AreRead(items[0].items, [], After(items[1..], rest))
    ensures ParseBody(CommaJoin(Renders(items)) + "}" + rest, done, Some(""), false)
         == if |items| == 1 then Done(List(done + [items[0]]), rest)
            else ParseBody(CommaJoin(Renders(items[1..])) + "}" + rest, done + [items[0]], Some(""), false)
  {
    var body := ListMemberText(items, rest);
    assert [] + items[0].items == items[0].items;
    NestedIsRead(body, items[0], After(items[1..], rest), done);
    AfterIsRead(items[1..], rest, done + [items[0]], None);
  }

  lemma {:induction false} MembersAreRead(items: seq<Node>, done: seq<Node>, rest: string)
    requires items != [] && forall k :: 0 <= k < |items| ==> WellFormed(items[k])
    ensures AreRead(items, done, rest)
    decreases items
  {
    match items[0] {
      case Leaf(_) =>
        LeafMemberIsRead(items, done, rest);
      case List(inner) =>
        MembersAreRead(inner, [], After(items[1..], rest));
        ListMemberIsRead(items, done, rest);
    }
    assert done + items == done + [items[0]] + items[1..];
    if |items| == 1 {
      assert done + items == done + [items[0]];
    } else {
      MembersAreRead(items[1..], done + [items[0]], rest);
    }
  }

  // ---- reading, then printing

  lemma {:induction false} RunSnoc(c: string, x: char, q: bool)
    ensures Run(c + [x], q)
         == match Run(c, q)
            case None => None
            case Some(p) => if !p && IsSpecial(x) then None else Some(if x == '"' then !p else p)
  {
    if c == "" {
      assert [x][1..] == "" && c + [x] == [x];
    } else {
      RunSnoc(c[1..], x, if c[0] == '"' then !q else q);
      assert (c + [x])[1..] == c[1..] + [x];
    }
  }

  lemma {:induction false} StripLeftKeeps(c: string)
    requires Run(c, false) == Some(false)
    ensures Run(StripLeft(c), false) == Some(false)
    ensures StripLeft(c) != "" ==> !IsSpace(StripLeft(c)[0])
  {
    if c != "" && IsSpace(c[0]) {
      StripLeftKeeps(c[1..]);
    }
  }

  lemma {:induction false} StripRightKeeps(c: string)
    requires Run(c, false) == Some(false) && (c != "" ==> !IsSpace(c[0]))
    ensures var t := StripRight(c);
            && Run(t, false) == Some(false)
            && (t != "" ==> !IsSpace(t[0]) && !IsSpace(t[|t| - 1]))
    decreases |c|
  {
    if c != "" && IsSpace(c[|c| - 1]) {
      var init := c[..|c| - 1];
      assert c == init + [c[|c| - 1]];
      RunSnoc(init, c[|c| - 1], false);
      StripRightKeeps(init);
    }
  }

  /** Trimming a balanced leaf gives a leaf that may stand in a tree. */
  lemma StripGivesLeaf(c: string)
    requires Run(c, false) == Some(false)
    ensures LeafOk(Strip(c))
  {
    StripLeftKeeps(c);
    StripRightKeeps(StripLeft(c));
  }

  predicate AllWellFormed(items: seq<Node>) {
    forall k :: 0 <= k < |items| ==> WellFormed(items[k])
  }

  /** A reader state met while reading: what is read so far is well formed, and the current leaf fits the quotes. */
  predicate StateOk(items: seq<Node>, cur: Option<string>, quoted: bool) {
    && AllWellFormed(items)
    && (cur.None? ==> !quoted && items != [])
    && (cur.Some? ==> Run(cur.value, false) == Some(quoted))
  }

  lemma StateTakesChar(items: seq<Node>, cur: Option<string>, quoted: bool, x: char)
    requires StateOk(items, cur, quoted) && (quoted || !IsSpecial(x)) && (cur.None? ==> x != '"')
    ensures StateOk(items, Some((if cur.Some? then cur.value else "") + [x]), if x == '"' then !quoted else quoted)
  {
    RunSnoc(if cur.Some? then cur.value else "", x, false);
  }

  lemma {:induction false} ParsedIsWellFormed(s: string, items: seq<Node>, cur: Option<string>, quoted: bool)
    requires StateOk(items, cur, quoted) && ParseBody(s, items, cur, quoted).Done?
    ensures ParseBody(s, items, cur, quoted).node.List? && WellFormed(ParseBody(s, items, cur, quoted).node)
    decreases |s|
  {
    if quoted && s[0] == '"' && |s| > 1 && s[1] == '"' {
      RunSnoc(cur.value, '"', false);
      RunSnoc(cur.value + ['"'], '"', false);
      assert cur.value + ['"'] + ['"'] == cur.value + "\"\"";
      ParsedIsWellFormed(s[2..], items, Some(cur.value + "\"\""), true);
    } else if quoted || s[0] == '"' || !IsSpecial(s[0]) {
      StateTakesChar(items, cur, quoted, s[0]);
      var q' := if s[0] == '"' then !quoted else quoted;
      ParsedIsWellFormed(s[1..], items, Some((if cur.Some? then cur.value else "") + [s[0]]), q');
    } else if s[0] == '{' {
      ParsedIsWellFormed(s[1..], [], Some(""), false);
      var inner := ParseBody(s[1..], [], Some(""), false);
      ParsedIsWellFormed(inner.rest, items + [inner.node], None, false);
    } else if s[0] == ',' || s[0] == '}' {
      if cur.Some? {
        StripGivesLeaf(cur.value);
      }
      var all := if cur.Some? then items + [Leaf(Strip(cur.value))] else items;
      if s[0] == ',' {
        ParsedIsWellFormed(s[1..], all, Some(""), false);
      }
    } else {
      ParsedIsWellFormed(s[1..], items, cur, false);
    }
  }

  // ---- the two theorems

  /** A tree is read back from its print, with nothing left over, exactly when it is well formed. */
  lemma ParseInvertsRender(t: Node)
    requires t.List?
    ensures Parse(Render(t)) == Done(t, "") <==> WellFormed(t)
  {
    var s := Render(t);
    var body := CommaJoin(Renders(t.items)) + "}";
    assert s[1..] == body && body + "" == body;
    if WellFormed(t) {
      MembersAreRead(t.items, [], "");
      assert [] + t.items == t.items;
    }
    if Parse(s) == Done(t, "") {
      ParsedIsWellFormed(s[1..], [], Some(""), false);
    }
  }

  /** Printing what was read from any accepted text, and reading again, gives the same tree. */
  lemma ParseIsStable(s: string)
    requires s != "" && s[0] == '{' && Parse(s).Done?
    ensures Parse(s).node.List? && Parse(Render(Parse(s).node)) == Done(Parse(s).node, "")
  {
    ParsedIsWellFormed(s[1..], [], Some(""), false);
    ParseInvertsRender(Parse(s).node);
  }
}
