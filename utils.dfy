/**
 * The value normaliser of utils.go: `quotes` turns the raw text after the
 * first `=` of a line into the value that is stored.
 */
module Utils {
  import opened GoStrings

  predicate IsQuote(c: char) {
    c == '"' || c == '\''
  }

  /** The unquoted path: cut at the first `#`, then trim white space. */
  function Unquoted(value: string): (r: string)
    ensures '#' !in r
    ensures r == [] || (!IsSpace(r[0]) && !IsSpace(r[|r| - 1]))
    ensures IsSubstring(r, value)
  {
    var c := Cut(value, '#');
    TrimSpaceInside(c.before, '#');
    assert c.before <= value;
    SubstringTransitive(TrimSpace(c.before), c.before, value);
    TrimSpace(c.before)
  }

  /** quotes(value). */
  function Quotes(value: string): (r: string)
    ensures value == [] ==> r == []
    ensures IsSubstring(r, value)
  {
    if |value| == 0 then
      ""
    else if IsQuote(value[0]) then
      var c := Cut(value[1..], value[0]);
      if c.found then
        assert value[1..1 + |c.before|] == c.before;
        SubstringAt(c.before, value, 1, 1 + |c.before|);
        c.before
      else
        assert value[1..] == value[1..|value|];
        assert IsSubstring(value[1..], value);
        SubstringTransitive(Unquoted(value[1..]), value[1..], value);
        Unquoted(value[1..])
    else Unquoted(value)
  }

  /** A matched quote returns exactly the text up to the first matching
      close quote, with `#` and white space kept, and never the quote. */
  lemma QuotesMatched(value: string)
    requires |value| > 0 && IsQuote(value[0]) && value[0] in value[1..]
    ensures value[0] !in Quotes(value)
    ensures [value[0]] + Quotes(value) + [value[0]] <= value
  {
    var c := Cut(value[1..], value[0]);
    assert value == [value[0]] + value[1..];
    assert value[1..] == c.before + [value[0]] + c.after;
    assert value == ([value[0]] + c.before + [value[0]]) + c.after;
  }

  /** Conversely, whatever follows the opening quote up to its first
      repetition is the result. */
  lemma QuotesMatchedContent(q: char, content: string, rest: string)
    requires IsQuote(q) && q !in content
    ensures Quotes([q] + content + [q] + rest) == content
  {
    var value := [q] + content + [q] + rest;
    assert value[1..] == content + [q] + rest;
    CutAt(content, q, rest);
  }

  /** An unterminated quote is the unquoted path on the text after it. */
  lemma QuotesUnterminated(value: string)
    requires |value| > 0 && IsQuote(value[0]) && value[0] !in value[1..]
    ensures Quotes(value) == Unquoted(value[1..])
  {
  }

  /** Off the matched-quote path the result holds no `#` and has no
      surrounding white space. */
  lemma QuotesUnquotedShape(value: string)
    requires value == [] || !IsQuote(value[0]) || value[0] !in value[1..]
    ensures '#' !in Quotes(value)
    ensures Quotes(value) == [] || (!IsSpace(Quotes(value)[0]) && !IsSpace(Quotes(value)[|Quotes(value)| - 1]))
  {
    if value != [] && IsQuote(value[0]) {
      QuotesUnterminated(value);
    } else if value != [] {
      assert Quotes(value) == Unquoted(value);
    }
  }

  /** A value that begins with white space is never quote-stripped: a quote
      after the blank survives. */
  lemma QuotesLeadingSpace(value: string)
    requires |value| > 0 && IsSpace(value[0])
    ensures Quotes(value) == TrimSpace(Cut(value, '#').before)
  {
  }

  /** The expected values of the loader's own tests. */
  lemma QuotesDoubleQuoted()
    ensures Quotes(['"'] + "quoted value" + ['"']) == "quoted value"
  {
    var content := "quoted value";
    assert forall k | 0 <= k < |content| :: content[k] != '"';
    QuotesMatchedContent('"', content, "");
    assert ['"'] + content + ['"'] + "" == ['"'] + content + ['"'];
  }

  lemma QuotesSingleQuoted()
    ensures Quotes("'" + "single quoted value" + "'") == "single quoted value"
  {
    var content := "single quoted value";
    assert forall k | 0 <= k < |content| :: content[k] != '\'';
    QuotesMatchedContent('\'', content, "");
    assert ['\''] + content + ['\''] + "" == "'" + content + "'";
  }

  lemma QuotesInlineComment()
    ensures Quotes(['"'] + "secret" + ['"'] + " # inline comment") == "secret"
  {
    var content := "secret";
    assert forall k | 0 <= k < |content| :: content[k] != '"';
    QuotesMatchedContent('"', content, " # inline comment");
  }

  lemma QuotesPlain()
    ensures Quotes("123") == "123"
  {
    TrimSpaceNoop("123");
  }
}
