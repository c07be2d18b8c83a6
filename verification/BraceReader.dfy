/** `parse` as its character loop over an index, proved to compute `BraceText.Parse`. */
module BraceReader {
  import opened Prelude
  import opened BraceTree
  import opened BraceText

  datatype ParseError = NoBrace | EndOfText | QuoteAfterList

  method ParseAt(text: string, start: nat) returns (r: Result<(Node, nat), ParseError>)
    ensures r == Err(NoBrace) <==> start >= |text| || text[start] != '{'
    ensures start < |text| && text[start] == '{' ==>
              match Parse(text[start..])
              case Done(node, rest) =>
                r.Ok? && r.value.0 == node && start < r.value.1 <= |text| && rest == text[r.value.1..]
              case Unterminated => r == Err(EndOfText)
              case Crash => r == Err(QuoteAfterList)
    decreases |text| - start
  {
    if start >= |text| || text[start] != '{' {
      return Err(NoBrace);
    }
    var items: seq<Node>, cur: Option<string>, i, quoted := [], Some(""), start + 1, false;
    assert text[start..][1..] == text[i..];
    while i < |text|
      invariant start < i <= |text| && (quoted ==> cur.Some?)
      invariant Parse(text[start..]) == ParseBody(text[i..], items, cur, quoted)
      decreases |text| - i
    {
      var ch := text[i];
      assert text[i..][0] == ch && text[i..][1..] == text[i + 1..];
      if quoted {
        cur := Some(cur.value + [ch]);
        if ch == '"' {
          if i + 1 < |text| && text[i + 1] == '"' {
            assert text[i..][2..] == text[i + 2..] && text[i..][1] == '"';
            assert cur.value + "\"" == cur.value[..|cur.value| - 1] + "\"\"";
            cur := Some(cur.value + "\"");
            i := i + 1;
          } else {
            quoted := false;
          }
        }
      } else if ch == '"' {
        quoted := true;
        if cur.None? { return Err(QuoteAfterList); }
        cur := Some(cur.value + [ch]);
      } else if ch == '{' {
        var nested := ParseAt(text, i);
        if nested.Err? { return Err(nested.error); }
        items := items + [nested.value.0];
        cur := None;
        i := nested.value.1 - 1;
      } else if ch == ',' || ch == '}' {
        if cur.Some? {
          items := items + [Leaf(Strip(cur.value))];
        }
        if ch == '}' {
          return Ok((List(items), i + 1));
        }
        cur := Some("");
      } else if ch == '\r' || ch == '\n' {
      } else {
        if cur.None? {
          cur := Some("");
        }
        cur := Some(cur.value + [ch]);
      }
      i := i + 1;
    }
    return Err(EndOfText);
  }
}
