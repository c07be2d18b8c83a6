/**
 * What `parse` makes of text that no printing gives: line breaks between members, blanks around leaves, text around
 * nested lists, and which lists it takes to be closed at all.
 */
module BraceLayout {
  import opened Prelude
  import opened BraceTree
  import opened BraceText
  import opened BraceScanners

  // ---- line breaks outside quotes

  /** `s` without the line breaks at even quote parity, `q` being the parity at its start. */
  function WithoutBreaks(s: string, q: bool): string {
    if s == "" then ""
    else if !q && (s[0] == '\r' || s[0] == '\n') then WithoutBreaks(s[1..], q)
    else [s[0]] + WithoutBreaks(s[1..], if s[0] == '"' then !q else q)
  }

  /** The same result, the rest of the text without its breaks. */
  function Undone(r: Parsed): Parsed {
    match r
    case Done(node, rest) => Done(node, WithoutBreaks(rest, false))
    case _ => r
  }

  /** The look ahead at a doubled quote comes to plain quote parity. */
  lemma QuoteIsParity(s: string, items: seq<Node>, cur: string)
    requires s != "" && s[0] == '"'
    ensures ParseBody(s, items, Some(cur), true) == ParseBody(s[1..], items, Some(cur + "\""), false)
  {
    if |s| > 1 && s[1] == '"' {
      assert s[1..][1..] == s[2..] && cur + "\"" + "\"" == cur + "\"\"";
    } else {
      assert cur + [s[0]] == cur + "\"";
    }
  }

  ghost predicate SameWithout(s: string, items: seq<Node>, cur: Option<string>, q: bool)
    requires q ==> cur.Some?
  {
    ParseBody(WithoutBreaks(s, q), items, cur, q) == Undone(ParseBody(s, items, cur, q))
  }

  lemma KeptCharacter(s: string, q: bool)
    requires s != "" && (q || (s[0] != '\r' && s[0] != '\n'))
    ensures var t := WithoutBreaks(s, q);
            t != "" && t[0] == s[0] && t[1..] == WithoutBreaks(s[1..], if s[0] == '"' then !q else q)
  {
  }

  lemma NestedWithout(s: string, items: seq<Node>, cur: Option<string>)
    requires s != "" && s[0] == '{' && SameWithout(s[1..], [], Some(""), false)
    requires var inner := ParseBody(s[1..], [], Some(""), false);
             inner.Done? ==> SameWithout(inner.rest, items + [inner.node], None, false)
    ensures SameWithout(s, items, cur, false)
  {
    KeptCharacter(s, false);
  }

  lemma {:induction false} BreaksDoNotMatter(s: string, items: seq<Node>, cur: Option<string>, q: bool)
    requires q ==> cur.Some?
    ensures SameWithout(s, items, cur, q)
    decreases |s|
  {
    if s == "" {
    } else if q || s[0] == '"' {
      KeptCharacter(s, q);
      if q && s[0] == '"' {
        QuoteIsParity(s, items, cur.value);
        QuoteIsParity(WithoutBreaks(s, q), items, cur.value);
        BreaksDoNotMatter(s[1..], items, Some(cur.value + "\""), false);
      } else if q {
        BreaksDoNotMatter(s[1..], items, Some(cur.value + [s[0]]), true);
      } else if cur.Some? {
        BreaksDoNotMatter(s[1..], items, Some(cur.value + "\""), true);
      }
    } else if s[0] == '{' {
      BreaksDoNotMatter(s[1..], [], Some(""), false);
      var inner := ParseBody(s[1..], [], Some(""), false);
      if inner.Done? {
        BreaksDoNotMatter(inner.rest, items + [inner.node], None, false);
      }
      NestedWithout(s, items, cur);
    } else if s[0] == ',' || s[0] == '}' {
      KeptCharacter(s, q);
      if s[0] == ',' {
        BreaksDoNotMatter(s[1..], if cur.Some? then items + [Leaf(Strip(cur.value))] else items, Some(""), false);
      }
    } else if s[0] == '\r' || s[0] == '\n' {
      BreaksDoNotMatter(s[1..], items, cur, false);
    } else {
      KeptCharacter(s, q);
      BreaksDoNotMatter(s[1..], items, Some((if cur.Some? then cur.value else "") + [s[0]]), false);
    }
  }

  /** Taking out every line break that does not stand in quotes changes neither the tree nor the refusal. */
  lemma ParseIgnoresBreaks(s: string)
    requires s != "" && s[0] == '{'
    ensures var t := WithoutBreaks(s, false);
            t != "" && t[0] == '{' && Parse(t) == Undone(Parse(s))
  {
    KeptCharacter(s, false);
    BreaksDoNotMatter(s[1..], [], Some(""), false);
  }

  // ---- blanks around leaves

  predicate IsBlank(s: string) {
    forall k :: 0 <= k < |s| ==> IsSpace(s[k])
  }

  lemma {:induction false} StripLeftOf(a: string, x: string)
    requires IsBlank(a) && (x != "" ==> !IsSpace(x[0]))
    ensures StripLeft(a + x) == x
  {
    if a == "" {
      assert a + x == x;
    } else {
      StripLeftOf(a[1..], x);
      assert (a + x)[1..] == a[1..] + x;
    }
  }

  lemma {:induction false} StripRightOf(x: string, b: string)
    requires IsBlank(b) && (x != "" ==> !IsSpace(x[|x| - 1]))
    ensures StripRight(x + b) == x
    decreases |b|
  {
    if b == "" {
      assert x + b == x;
    } else {
      StripRightOf(x, b[..|b| - 1]);
      assert (x + b)[..|x + b| - 1] == x + b[..|b| - 1];
    }
  }

  /** Trimming takes off exactly the blanks at both ends. */
  lemma StripIs(a: string, x: string, b: string)
    requires IsBlank(a) && IsBlank(b) && (x != "" ==> !IsSpace(x[0]) && !IsSpace(x[|x| - 1]))
    ensures Strip(a + x + b) == x
  {
    if x == "" {
      StripLeftOf(a + b, "");
      assert a + x + b == a + b + "";
    } else {
      StripLeftOf(a, x + b);
      StripRightOf(x, b);
      assert a + x + b == a + (x + b);
    }
  }

  /** In Basic Latin a blank is one of ten characters. */
  lemma BlanksOfBasicLatin(c: char)
    requires c < '\U{80}'
    ensures IsSpace(c) <==> c in "\t\n\U{0B}\U{0C}\r\U{1C}\U{1D}\U{1E}\U{1F} "
  {
  }

  // ---- text around nested lists

  /**
   * The text between two commas, or between a comma and a brace: any number of nested lists with text before each and
   * behind the last.
   */
  datatype Field = Plain(text: string) | Nested(text: string, fields: seq<Field>, more: Field)

  function TextOf(f: Field): string
    decreases f, 1
  {
    match f
    case Plain(text) => text
    case Nested(text, fields, more) => text + "{" + CommaJoin(TextsOf(fields)) + "}" + TextOf(more)
  }

  function TextsOf(fs: seq<Field>): (r: seq<string>)
    ensures |r| == |fs|
    decreases fs, 0
  {
    if fs == [] then [] else [TextOf(fs[0])] + TextsOf(fs[1..])
  }

  /** The members a field is read as: its lists, without the text before them, and a leaf unless nothing follows a list. */
  function MembersOf(f: Field, afterList: bool): seq<Node>
    decreases f, 1
  {
    match f
    case Plain(text) => if afterList && text == "" then [] else [Leaf(Strip(text))]
    case Nested(_, fields, more) => [List(AllMembers(fields))] + MembersOf(more, true)
  }

  function AllMembers(fs: seq<Field>): seq<Node>
    decreases fs, 0
  {
    if fs == [] then [] else MembersOf(fs[0], false) + AllMembers(fs[1..])
  }

  /** Balanced quotes, nothing special outside them, and no quote right after a nested list. */
  predicate FieldOk(f: Field, afterList: bool)
    decreases f
  {
    && Run(f.text, false) == Some(false)
    && (afterList && f.text != "" ==> f.text[0] != '"')
    && (f.Nested? ==> f.fields != [] && FieldOk(f.more, true) && forall k :: 0 <= k < |f.fields| ==> FieldOk(f.fields[k], false))
  }

  function StateAt(afterList: bool): Option<string> {
    if afterList then None else Some("")
  }

  /** Text of a field up to the character `s[0]` behind it. */
  lemma TextIsRead(text: string, s: string, items: seq<Node>, afterList: bool)
    requires Run(text, false) == Some(false) && s != "" && s[0] != '"'
    requires afterList && text != "" ==> text[0] != '"'
    ensures ParseBody(text + s, items, StateAt(afterList), false)
         == ParseBody(s, items, if afterList && text == "" then None else Some(text), false)
  {
    if !afterList {
      LeafIsRead(text, s, items, "", false);
      assert "" + text == text;
    } else if text == "" {
      assert text + s == s;
    } else {
      LeafIsRead(text[1..], s, items, "" + [text[0]], false);
      assert (text + s)[1..] == text[1..] + s && "" + [text[0]] + text[1..] == text;
    }
  }

  /** A field and the comma or brace behind it are read as its members. */
  ghost predicate FieldIsRead(f: Field, s: string, items: seq<Node>, afterList: bool)
    requires s != "" && (s[0] == ',' || s[0] == '}')
  {
    var all := items + MembersOf(f, afterList);
    ParseBody(TextOf(f) + s, items, StateAt(afterList), false)
    == if s[0] == '}' then Done(List(all), s[1..]) else ParseBody(s[1..], all, Some(""), false)
  }

  /** The fields of a list up to its brace are read as all their members. */
  ghost predicate FieldsAreRead(fs: seq<Field>, rest: string, items: seq<Node>) {
    ParseBody(CommaJoin(TextsOf(fs)) + "}" + rest, items, Some(""), false) == Done(List(items + AllMembers(fs)), rest)
  }

  lemma {:induction false} OneField(f: Field, s: string, items: seq<Node>, afterList: bool)
    requires s != "" && (s[0] == ',' || s[0] == '}') && FieldOk(f, afterList)
    ensures FieldIsRead(f, s, items, afterList)
    decreases f, 1
  {
    match f {
      case Plain(text) =>
        TextIsRead(text, s, items, afterList);
        assert items + [] == items;
      case Nested(text, fields, more) =>
        var tail := TextOf(more) + s;
        var body := CommaJoin(TextsOf(fields)) + "}" + tail;
        var node := List(AllMembers(fields));
        assert TextOf(f) + s == text + ("{" + body);
        TextIsRead(text, "{" + body, items, afterList);
        Fields(fields, tail, []);
        assert [] + AllMembers(fields) == AllMembers(fields) && ("{" + body)[1..] == body;
        OneField(more, s, items + [node], true);
        assert items + MembersOf(f, afterList) == items + [node] + MembersOf(more, true);
    }
  }

  lemma {:induction false} Fields(fs: seq<Field>, rest: string, items: seq<Node>)
    requires fs != [] && forall k :: 0 <= k < |fs| ==> FieldOk(fs[k], false)
    ensures FieldsAreRead(fs, rest, items)
    decreases fs, 0
  {
    hide ParseBody, MembersOf, TextOf, FieldOk, CommaJoin;
    var first := TextOf(fs[0]);
    JoinCons(first, TextsOf(fs[1..]));
    if |fs| == 1 {
      OneField(fs[0], "}" + rest, items, false);
      assert CommaJoin(TextsOf(fs)) + "}" + rest == first + ("}" + rest);
      assert ("}" + rest)[1..] == rest && fs[1..] == [];
      assert AllMembers(fs) == MembersOf(fs[0], false) + [];
      assert items + AllMembers(fs) == items + MembersOf(fs[0], false);
    } else {
      var more := CommaJoin(TextsOf(fs[1..])) + "}" + rest;
      OneField(fs[0], "," + more, items, false);
      assert CommaJoin(TextsOf(fs)) + "}" + rest == first + ("," + more) && ("," + more)[1..] == more;
      Fields(fs[1..], rest, items + MembersOf(fs[0], false));
      Regroup(items, MembersOf(fs[0], false), AllMembers(fs[1..]));
    }
  }

  /**
   * A list in any layout: text before a nested list is dropped, text behind one is one more member, and a leaf is the
   * trimmed text of its field.
   */
  lemma LayoutIsRead(fs: seq<Field>, rest: string)
    requires fs != [] && forall k :: 0 <= k < |fs| ==> FieldOk(fs[k], false)
    ensures Parse("{" + CommaJoin(TextsOf(fs)) + "}" + rest) == Done(List(AllMembers(fs)), rest)
  {
    hide ParseBody, AllMembers, TextsOf, CommaJoin, FieldOk;
    Fields(fs, rest, []);
    BraceInFront(CommaJoin(TextsOf(fs)), rest);
    assert [] + AllMembers(fs) == AllMembers(fs);
  }

  lemma BraceInFront(body: string, rest: string)
    ensures var s := "{" + body + "}" + rest; s[0] == '{' && s[1..] == body + "}" + rest
  {
  }

  // ---- which lists close

  /** The offset past the brace that closes `depth` lists and the one around them, by quote parity and depth alone. */
  function Closing(t: string, j: nat, depth: nat, inQuotes: bool): Option<nat>
    requires j <= |t|
    decreases |t| - j
  {
    if j == |t| then None
    else if t[j] == '"' then Closing(t, j + 1, depth, !inQuotes)
    else if inQuotes then Closing(t, j + 1, depth, true)
    else if t[j] == '{' then Closing(t, j + 1, depth + 1, false)
    else if t[j] == '}' then if depth == 0 then Some(j + 1) else Closing(t, j + 1, depth - 1, false)
    else Closing(t, j + 1, depth, false)
  }

  lemma {:induction false} SpansClose(t: string, j: nat, depth: nat, start: nat, inQuotes: bool)
    requires j <= |t|
    ensures Spans(t, j, depth, start, inQuotes).Some? <==> Closing(t, j, depth, inQuotes).Some?
    ensures Spans(t, j, depth, start, inQuotes).Some? ==>
              Spans(t, j, depth, start, inQuotes).value.1 == Closing(t, j, depth, inQuotes).value
    decreases |t| - j
  {
    if j < |t| {
      if t[j] == '"' {
        SpansClose(t, j + 1, depth, start, !inQuotes);
      } else if inQuotes {
        SpansClose(t, j + 1, depth, start, true);
      } else if t[j] == '{' {
        SpansClose(t, j + 1, depth + 1, start, false);
      } else if t[j] == '}' {
        if depth > 0 {
          SpansClose(t, j + 1, depth - 1, start, false);
        }
      } else if t[j] == ',' && depth == 0 {
        SpansClose(t, j + 1, 0, j + 1, false);
      } else {
        SpansClose(t, j + 1, depth, start, false);
      }
    }
  }

  /**
   * Before the list closes, quotes open right behind a nested list, line breaks aside; `after` says that nothing else
   * stood since one closed.
   */
  predicate Stray(t: string, j: nat, depth: nat, inQuotes: bool, after: bool)
    requires j <= |t|
    decreases |t| - j
  {
    if j == |t| then false
    else if t[j] == '"' then (!inQuotes && after) || Stray(t, j + 1, depth, !inQuotes, false)
    else if inQuotes then Stray(t, j + 1, depth, true, false)
    else if t[j] == '{' then Stray(t, j + 1, depth + 1, false, false)
    else if t[j] == '}' then depth > 0 && Stray(t, j + 1, depth - 1, false, true)
    else Stray(t, j + 1, depth, false, after && (t[j] == '\r' || t[j] == '\n'))
  }

  /**
   * A list the reader finishes closes where it says, at any depth around it; one it runs out of text in does not close;
   * and it gives up on stray quotes before either.
   */
  ghost predicate ClosesAsRead(t: string, j: nat, depth: nat, inQuotes: bool, after: bool, r: Parsed)
    requires j <= |t|
  {
    match r
    case Done(_, rest) =>
      && j < |t| - |rest| && t[|t| - |rest|..] == rest
      && Closing(t, j, depth, inQuotes)
         == (if depth == 0 then Some(|t| - |rest|) else Closing(t, |t| - |rest|, depth - 1, false))
      && Stray(t, j, depth, inQuotes, after) == (depth > 0 && Stray(t, |t| - |rest|, depth - 1, false, true))
    case Unterminated => Closing(t, j, depth, inQuotes) == None && !Stray(t, j, depth, inQuotes, after)
    case Crash => Stray(t, j, depth, inQuotes, after)
  }

  /** One character that neither opens nor closes a list. */
  lemma PlainCloses(t: string, j: nat, depth: nat, q: bool, p: bool, after: bool, r: Parsed)
    requires j < |t| && (if t[j] == '"' then p == !q else p == q && (q || (t[j] != '{' && t[j] != '}')))
    requires t[j] == '"' && !q ==> !after
    requires ClosesAsRead(t, j + 1, depth, p, after && !q && (t[j] == '\r' || t[j] == '\n'), r)
    ensures ClosesAsRead(t, j, depth, q, after, r)
  {
  }

  lemma NestedCloses(t: string, j: nat, depth: nat, after: bool, inner: Parsed, r: Parsed)
    requires j < |t| && t[j] == '{' && ClosesAsRead(t, j + 1, depth + 1, false, false, inner)
    requires if inner.Done? then ClosesAsRead(t, |t| - |inner.rest|, depth, false, true, r) else r == inner
    ensures ClosesAsRead(t, j, depth, false, after, r)
  {
  }

  lemma BraceCloses(t: string, j: nat, depth: nat, after: bool, node: Node)
    requires j < |t| && t[j] == '}'
    ensures ClosesAsRead(t, j, depth, false, after, Done(node, t[j + 1..]))
  {
  }

  lemma EndCloses(t: string, depth: nat, q: bool, after: bool)
    ensures ClosesAsRead(t, |t|, depth, q, after, Unterminated)
  {
  }

  lemma CrashCloses(t: string, j: nat, depth: nat)
    requires j < |t| && t[j] == '"'
    ensures ClosesAsRead(t, j, depth, false, true, Crash)
  {
  }

  lemma {:induction false} ReadingCloses(t: string, j: nat, depth: nat, items: seq<Node>, cur: Option<string>, q: bool)
    requires j <= |t| && (q ==> cur.Some?)
    ensures ClosesAsRead(t, j, depth, q, cur.None?, ParseBody(t[j..], items, cur, q))
    decreases |t| - j
  {
    hide ClosesAsRead;
    var s, after := t[j..], cur.None?;
    var r := ParseBody(s, items, cur, q);
    if s == "" {
      EndCloses(t, depth, q, after);
    } else {
      assert s[0] == t[j] && s[1..] == t[j + 1..];
      if q && s[0] == '"' {
        QuoteIsParity(s, items, cur.value);
        ReadingCloses(t, j + 1, depth, items, Some(cur.value + "\""), false);
        PlainCloses(t, j, depth, q, false, after, r);
      } else if q {
        ReadingCloses(t, j + 1, depth, items, Some(cur.value + [s[0]]), true);
        PlainCloses(t, j, depth, q, true, after, r);
      } else if s[0] == '"' {
        if cur.None? {
          CrashCloses(t, j, depth);
        } else {
          ReadingCloses(t, j + 1, depth, items, Some(cur.value + "\""), true);
          PlainCloses(t, j, depth, q, true, after, r);
        }
      } else if s[0] == '{' {
        ReadingCloses(t, j + 1, depth + 1, [], Some(""), false);
        var inner := ParseBody(s[1..], [], Some(""), false);
        if inner.Done? {
          RestIsTail(t, j + 1, depth + 1, inner);
          ReadingCloses(t, |t| - |inner.rest|, depth, items + [inner.node], None, false);
        }
        NestedCloses(t, j, depth, after, inner, r);
      } else if s[0] == '}' {
        BraceCloses(t, j, depth, after, List(if cur.Some? then items + [Leaf(Strip(cur.value))] else items));
      } else {
        if s[0] == ',' {
          ReadingCloses(t, j + 1, depth, if cur.Some? then items + [Leaf(Strip(cur.value))] else items, Some(""), false);
        } else if s[0] == '\r' || s[0] == '\n' {
          ReadingCloses(t, j + 1, depth, items, cur, false);
        } else {
          ReadingCloses(t, j + 1, depth, items, Some((if cur.Some? then cur.value else "") + [s[0]]), false);
        }
        PlainCloses(t, j, depth, q, false, after, r);
      }
    }
  }

  lemma RestIsTail(t: string, j: nat, depth: nat, r: Parsed)
    requires j <= |t| && r.Done? && ClosesAsRead(t, j, depth, false, false, r)
    ensures j < |t| - |r.rest| && t[|t| - |r.rest|..] == r.rest
  {
  }

  /**
   * The reader and the scanners agree on any text at all: what the reader finishes the scanners close at the same offset,
   * and what it finds unterminated they do not close. It gives up exactly on stray quotes, which the scanners do not mind.
   */
  lemma ReaderAndScannersClose(t: string, start: nat)
    requires start < |t| && t[start] == '{'
    ensures match Parse(t[start..])
            case Done(_, rest) => FieldsOf(t, start).Some? && FieldsOf(t, start).value.1 == |t| - |rest|
            case Unterminated => FieldsOf(t, start) == None
            case Crash => Stray(t, start + 1, 0, false, false)
    ensures Stray(t, start + 1, 0, false, false) ==> Parse(t[start..]).Crash?
  {
    assert t[start..][1..] == t[start + 1..];
    ReadingCloses(t, start + 1, 0, [], Some(""), false);
    SpansClose(t, start + 1, 0, start + 1, false);
  }
}
