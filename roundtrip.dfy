/**
 * How far the text Marshal writes is read back: by quotes (one value), by
 * Collect's line parser (one line, then a whole output) and by Unmarshal
 * (a whole struct).
 */
module RoundTrip {
  import opened Wrappers
  import opened GoStrings
  import opened Strconv
  import opened Environment
  import opened Utils
  import opened Dotenv
  import opened Records
  import opened Unmarshaling
  import opened Marshaling

  /** A value quotes keeps as it is: no `#`, no surrounding white space and
      no leading single quote. */
  predicate Plain(v: string) {
    '#' !in v && (v == [] || (!IsSpace(v[0]) && !IsSpace(v[|v| - 1]) && v[0] != '\''))
  }

  /** Marshal's quoting is undone by quotes for a value without `"` that
      either holds a space or is plain. */
  lemma QuoteSpacedRoundTrip(v: string)
    requires '"' !in v
    requires ' ' in v || Plain(v)
    ensures Quotes(QuoteSpaced(v)) == v
  {
    ContainsIn(v, ' ');
    if ' ' in v {
      QuotedRoundTrip(v);
    } else {
      PlainRoundTrip(v);
    }
  }

  lemma QuotedRoundTrip(v: string)
    requires '"' !in v
    ensures Quotes("\"" + v + "\"") == v
  {
    QuotesMatchedContent('"', v, "");
    assert ['"'] + v + ['"'] + "" == "\"" + v + "\"";
  }

  lemma PlainRoundTrip(v: string)
    requires '"' !in v && Plain(v)
    ensures Quotes(v) == v
  {
    if v != [] {
      assert v[0] != '"';
      assert Cut(v, '#').before == v;
      TrimSpaceNoop(v);
    }
  }

  /** Without a space, a `#` ends the value early: the comment rule wins. */
  lemma QuoteSpacedLosesComment()
    ensures Quotes(QuoteSpaced("a#b")) == "a"
  {
    assert ' ' !in "a#b";
    ContainsIn("a#b", ' ');
    assert Cut("a#b", '#') == CutResult("a", "b", true) by {
      CutAt("a", '#', "b");
      assert "a" + ['#'] + "b" == "a#b";
    }
    TrimSpaceNoop("a");
  }

  /** A key Collect reads back unchanged and os.Setenv accepts. */
  predicate KeyOk(k: string) {
    k != "" && '=' !in k && '\n' !in k && '\0' !in k && k[0] != '#' && !("export " <= k)
  }

  /** A value text that survives Marshal, Split, quotes and os.Setenv. */
  predicate TextOk(t: string) {
    '\n' !in t && '\0' !in t && '"' !in t && (' ' in t || Plain(t))
  }

  lemma NotExportLine(k: string, rest: string)
    requires !("export " <= k)
    ensures !("export " <= k + "=" + rest)
  {
    var line := k + "=" + rest;
    if |k| >= 7 {
      assert line[..7] == k[..7];
    } else {
      assert line[|k|] == '=';
      assert "export "[|k|] != '=';
    }
  }

  /** Collect's parser reads a Marshal line back as the field's tag and
      its %v text. */
  lemma LineRoundTrip(d: FieldDecl, v: Scalar)
    requires KeyOk(d.tag) && TextOk(Format(v))
    ensures ParseLine(LineOf(d, v)) == Some(Entry(d.tag, Format(v)))
  {
    var q := QuoteSpaced(Format(v));
    NotExportLine(d.tag, q);
    ParseLineOf(LineOf(d, v), d.tag, q);
    QuoteSpacedRoundTrip(Format(v));
  }

  /** Digits with an optional minus sign meet TextOk. */
  lemma SignedDigitsTextOk(sign: string, digits: string)
    requires sign == "" || sign == "-"
    requires digits != [] && AllDigits(digits)
    ensures TextOk(sign + digits)
  {
    var t := sign + digits;
    assert forall k | 0 <= k < |t| :: IsDigit(t[k]) || t[k] == '-' by {
      forall k | 0 <= k < |t|
        ensures IsDigit(t[k]) || t[k] == '-'
      {
        if k >= |sign| {
          assert t[k] == digits[k - |sign|];
        }
      }
    }
    assert t[|t| - 1] == digits[|digits| - 1];
  }

  /** The %v text of an int or a bool already meets TextOk. */
  lemma FormatTextOk(v: Scalar)
    requires !v.Str?
    ensures TextOk(Format(v))
  {
    if v.Int? {
      var i := v.i;
      if i < 0 {
        SignedDigitsTextOk("-", Decimal(-i));
      } else {
        SignedDigitsTextOk("", Decimal(i));
        assert "" + Decimal(i) == Decimal(i);
      }
    }
  }

  /** Only the empty string prints as nothing. */
  lemma FormatEmpty(v: Scalar)
    ensures Format(v) == "" ==> v == Str("")
  {
  }

  /** What Marshal output needs for Collect and Unmarshal to read it back:
      every tagged field is exported, has a usable, distinct key and a
      usable value text. */
  ghost predicate RoundTrippable(decls: seq<FieldDecl>, values: seq<Scalar>)
    requires |values| == |decls|
  {
    (forall j | 0 <= j < |decls| && decls[j].tag != "" ::
      decls[j].exported && KeyOk(decls[j].tag) && TextOk(Format(values[j])) && WellTyped(values[j])) &&
    (forall i, j | 0 <= i < j < |decls| && decls[i].tag != "" :: decls[i].tag != decls[j].tag)
  }

  /** `k` is the key of none of the first `n` tagged fields. */
  ghost predicate NotATag(decls: seq<FieldDecl>, n: nat, k: string)
    requires n <= |decls|
  {
    forall j | 0 <= j < n && decls[j].tag != "" :: decls[j].tag != k
  }

  /** Lines assigning pairwise distinct keys: each key ends with its
      line's value, and every other variable is left alone. */
  lemma LoadAssignments(vars: Vars, lines: seq<string>, keys: seq<string>, texts: seq<string>)
    requires |lines| == |keys| == |texts|
    requires forall k | 0 <= k < |lines| :: SetsKey(lines[k], keys[k]) && ParseLine(lines[k]).value.value == texts[k]
    requires forall a, b | 0 <= a < b < |keys| :: keys[a] != keys[b]
    ensures forall k | 0 <= k < |keys| :: keys[k] in LoadLines(vars, lines) && LoadLines(vars, lines)[keys[k]] == texts[k]
    ensures forall key | key !in keys :: SameAt(LoadLines(vars, lines), vars, key)
  {
    forall k | 0 <= k < |keys|
      ensures keys[k] in LoadLines(vars, lines) && LoadLines(vars, lines)[keys[k]] == texts[k]
    {
      assert forall j | k < j < |lines| :: !SetsKey(lines[j], keys[k]) by {
        forall j | k < j < |lines| ensures !SetsKey(lines[j], keys[k]) {
          assert SetsKey(lines[j], keys[j]) && keys[j] != keys[k];
        }
      }
      LoadLinesLastWins(vars, lines, keys[k], k);
    }
    forall key | key !in keys
      ensures SameAt(LoadLines(vars, lines), vars, key)
    {
      assert forall j | 0 <= j < |lines| :: !SetsKey(lines[j], key) by {
        forall j | 0 <= j < |lines| ensures !SetsKey(lines[j], key) {
          assert SetsKey(lines[j], keys[j]) && keys[j] != key;
        }
      }
      LoadLinesUntouched(vars, lines, key);
    }
  }

  /** The tag of each field. */
  function Tags(decls: seq<FieldDecl>): (ks: seq<string>)
    ensures |ks| == |decls|
  {
    seq(|decls|, k requires 0 <= k < |decls| => decls[k].tag)
  }

  /** The %v text of each field. */
  function Texts(values: seq<Scalar>): (ts: seq<string>)
    ensures |ts| == |values|
  {
    seq(|values|, k requires 0 <= k < |values| => Format(values[k]))
  }

  /** The keys of the tagged fields among the first `n`, in order. */
  function TaggedKeys(decls: seq<FieldDecl>, n: nat): seq<string>
    requires n <= |decls|
  {
    Tagged(decls, Tags(decls), n)
  }

  /** The %v texts of the tagged fields among the first `n`, in order. */
  function TaggedTexts(decls: seq<FieldDecl>, values: seq<Scalar>, n: nat): seq<string>
    requires |values| == |decls| && n <= |decls|
  {
    Tagged(decls, Texts(values), n)
  }

  /** The line assigns `text` to `key`. */
  predicate Assigns(line: string, key: string, text: string) {
    SetsKey(line, key) && ParseLine(line).value.value == text
  }

  /** A Marshal line of a round-trippable field assigns the field's tag
      its text. */
  lemma LineAssigns(d: FieldDecl, v: Scalar)
    requires KeyOk(d.tag) && TextOk(Format(v))
    ensures Assigns(LineOf(d, v), d.tag, Format(v))
  {
    LineRoundTrip(d, v);
    assert CanSetenv(d.tag, Format(v));
  }

  /** Line `k` of a round-trippable Marshal output assigns key `k` its text. */
  lemma TaggedLinesParse(decls: seq<FieldDecl>, values: seq<Scalar>, n: nat)
    requires |values| == |decls| && n <= |decls| && RoundTrippable(decls, values)
    ensures |TaggedLines(decls, values, n)| == |TaggedKeys(decls, n)| == |TaggedTexts(decls, values, n)|
    ensures forall k | 0 <= k < |TaggedLines(decls, values, n)| ::
      Assigns(TaggedLines(decls, values, n)[k], TaggedKeys(decls, n)[k], TaggedTexts(decls, values, n)[k])
  {
    var ls, ks, ts := FieldLines(decls, values), Tags(decls), Texts(values);
    TaggedLength(decls, ls, n);
    TaggedLength(decls, ks, n);
    TaggedLength(decls, ts, n);
    forall k | 0 <= k < |TaggedLines(decls, values, n)|
      ensures Assigns(TaggedLines(decls, values, n)[k], TaggedKeys(decls, n)[k], TaggedTexts(decls, values, n)[k])
    {
      var j := TaggedField(decls, n, k);
      TaggedFrom(decls, ls, n, k);
      TaggedFrom(decls, ks, n, k);
      TaggedFrom(decls, ts, n, k);
      LineAssigns(decls[j], values[j]);
    }
  }

  /** A Marshal line of a round-trippable field is a single line. */
  lemma LineOfOneLine(d: FieldDecl, v: Scalar)
    requires KeyOk(d.tag) && TextOk(Format(v))
    ensures '\n' !in LineOf(d, v)
  {
    var t := Format(v);
    ContainsIn(t, ' ');
    assert '\n' !in QuoteSpaced(t);
  }

  /** No line of a round-trippable Marshal output holds a newline. */
  lemma TaggedLinesOneLine(decls: seq<FieldDecl>, values: seq<Scalar>, n: nat)
    requires |values| == |decls| && n <= |decls| && RoundTrippable(decls, values)
    ensures forall k | 0 <= k < |TaggedLines(decls, values, n)| :: '\n' !in TaggedLines(decls, values, n)[k]
  {
    forall k | 0 <= k < |TaggedLines(decls, values, n)|
      ensures '\n' !in TaggedLines(decls, values, n)[k]
    {
      var j := TaggedField(decls, n, k) by {
        TaggedLength(decls, FieldLines(decls, values), n);
      }
      TaggedFrom(decls, FieldLines(decls, values), n, k);
      LineOfOneLine(decls[j], values[j]);
    }
  }

  /** A key in the list is the tag of one of the fields. */
  lemma TaggedKeysAreTags(decls: seq<FieldDecl>, n: nat, key: string)
    requires n <= |decls| && key in TaggedKeys(decls, n)
    ensures !NotATag(decls, n, key)
  {
    var k :| 0 <= k < |TaggedKeys(decls, n)| && TaggedKeys(decls, n)[k] == key;
    TaggedFrom(decls, Tags(decls), n, k);
    var j := TaggedField(decls, n, k);
    assert decls[j].tag == key;
  }

  /** The keys of a round-trippable struct are pairwise distinct. */
  lemma TaggedKeysDistinct(decls: seq<FieldDecl>, values: seq<Scalar>, n: nat)
    requires |values| == |decls| && n <= |decls| && RoundTrippable(decls, values)
    ensures forall a, b | 0 <= a < b < |TaggedKeys(decls, n)| :: TaggedKeys(decls, n)[a] != TaggedKeys(decls, n)[b]
  {
    var keys := TaggedKeys(decls, n);
    forall a, b | 0 <= a < b < |keys|
      ensures keys[a] != keys[b]
    {
      TaggedFrom(decls, Tags(decls), n, a);
      TaggedFrom(decls, Tags(decls), n, b);
      var ja, jb := TaggedField(decls, n, a), TaggedField(decls, n, b);
      assert keys[a] == decls[ja].tag && keys[b] == decls[jb].tag;
      if ja < jb {
        assert decls[ja].tag != decls[jb].tag;
      } else {
        assert jb < ja;
        assert decls[jb].tag != decls[ja].tag;
      }
    }
  }

  /** Loading the lines of the tagged fields sets each of their keys to the
      field's text and leaves every other key alone. */
  lemma LoadTaggedLines(decls: seq<FieldDecl>, values: seq<Scalar>, vars: Vars)
    requires |values| == |decls| && RoundTrippable(decls, values)
    ensures forall j | 0 <= j < |decls| && decls[j].tag != "" ::
      decls[j].tag in LoadLines(vars, TaggedLines(decls, values, |decls|)) &&
      LoadLines(vars, TaggedLines(decls, values, |decls|))[decls[j].tag] == Format(values[j])
    ensures forall k | NotATag(decls, |decls|, k) :: SameAt(LoadLines(vars, TaggedLines(decls, values, |decls|)), vars, k)
  {
    var n := |decls|;
    var lines := TaggedLines(decls, values, n);
    var keys := TaggedKeys(decls, n);
    var texts := TaggedTexts(decls, values, n);
    TaggedLinesParse(decls, values, n);
    TaggedKeysDistinct(decls, values, n);
    LoadAssignments(vars, lines, keys, texts);
    forall j | 0 <= j < n && decls[j].tag != ""
      ensures decls[j].tag in LoadLines(vars, lines) && LoadLines(vars, lines)[decls[j].tag] == Format(values[j])
    {
      TaggedAt(decls, Tags(decls), n, j);
      TaggedAt(decls, Texts(values), n, j);
      var k := TaggedCount(decls, j);
      assert keys[k] == decls[j].tag && texts[k] == Format(values[j]);
    }
    forall k | NotATag(decls, n, k)
      ensures k !in keys
    {
      if k in keys {
        TaggedKeysAreTags(decls, n, k);
      }
    }
  }

  lemma TerminatedLength(lines: seq<string>)
    ensures |Terminated(lines)| >= |lines|
    ensures lines != [] ==> |Terminated(lines)| >= |lines[|lines| - 1]| + 1
  {
  }

  /** A file made of newline-free lines, each ended by a newline, loads as
      those lines: the empty piece after the last newline sets nothing, and
      neither does a lone empty line, whose file is too short to be read. */
  lemma LoadTerminated(vars: Vars, lines: seq<string>)
    requires forall k | 0 <= k < |lines| :: '\n' !in lines[k]
    ensures LoadFile(vars, Some(Terminated(lines))) == LoadLines(vars, lines)
  {
    var out := Terminated(lines);
    if lines == [""] {
      assert out == "\n";
      assert LoadLines(vars, lines) == LoadLine(LoadLines(vars, []), "");
    } else if lines != [] {
      TerminatedLength(lines);
      SplitTerminated(lines);
      LoadLinesAppend(vars, lines, [""]);
      assert LoadLines(LoadLines(vars, lines), [""]) == LoadLine(LoadLines(vars, lines), "");
    }
  }

  /** Collect applied to a file holding Marshal's output sets each tagged
      field's key to its %v text and leaves every other variable alone. */
  lemma MarshalThenCollect(decls: seq<FieldDecl>, values: seq<Scalar>, vars: Vars)
    requires |values| == |decls| && RoundTrippable(decls, values)
    ensures Encode(decls, values).Success?
    ensures var loaded := LoadFile(vars, Some(Encode(decls, values).value));
      (forall j | 0 <= j < |decls| && decls[j].tag != "" ::
        decls[j].tag in loaded && loaded[decls[j].tag] == Format(values[j])) &&
      (forall k | NotATag(decls, |decls|, k) :: SameAt(loaded, vars, k))
  {
    var n := |decls|;
    EncodeAllExported(decls, values, n);
    var lines := TaggedLines(decls, values, n);
    TaggedLinesOneLine(decls, values, n);
    LoadTerminated(vars, lines);
    LoadTaggedLines(decls, values, vars);
  }

  /**
   * The round trip: Unmarshal into a zero-valued struct of the same type,
   * from the environment Collect builds out of Marshal's output, succeeds
   * and gives every tagged field its original value; untagged fields stay
   * zero.
   */
  lemma MarshalCollectUnmarshal(decls: seq<FieldDecl>, values: seq<Scalar>, zero: seq<Scalar>, vars: Vars)
    requires |values| == |decls| && |zero| == |decls| && RoundTrippable(decls, values)
    requires forall j | 0 <= j < |decls| :: SameType(zero[j], values[j]) && IsZero(zero[j])
    ensures Encode(decls, values).Success?
    ensures var o := FillFrom(decls, zero, LoadFile(vars, Some(Encode(decls, values).value)), 0);
      o.err == None &&
      forall j | 0 <= j < |decls| :: o.values[j] == if decls[j].tag != "" then values[j] else zero[j]
  {
    MarshalThenCollect(decls, values, vars);
    var loaded := LoadFile(vars, Some(Encode(decls, values).value));
    forall j | 0 <= j < |decls|
      ensures !FailsAt(decls, zero, loaded, j)
      ensures Filled(decls[j], zero[j], loaded) == if decls[j].tag != "" then values[j] else zero[j]
    {
      if decls[j].tag != "" {
        assert Getenv(loaded, decls[j].tag) == Format(values[j]);
        SetFieldFormat(zero[j], values[j]);
        FormatEmpty(values[j]);
      }
    }
    FillFromNoFailure(decls, zero, loaded, 0);
  }
  /** For a struct whose tagged fields are all int or bool, the round trip
      needs no condition on the field values: their %v texts always read
      back. */
  lemma MarshalCollectUnmarshalScalars(decls: seq<FieldDecl>, values: seq<Scalar>, zero: seq<Scalar>, vars: Vars)
    requires |values| == |decls| && |zero| == |decls|
    requires forall j | 0 <= j < |decls| && decls[j].tag != "" ::
      decls[j].exported && KeyOk(decls[j].tag) && !values[j].Str? && WellTyped(values[j])
    requires forall i, j | 0 <= i < j < |decls| && decls[i].tag != "" :: decls[i].tag != decls[j].tag
    requires forall j | 0 <= j < |decls| :: SameType(zero[j], values[j]) && IsZero(zero[j])
    ensures Encode(decls, values).Success?
    ensures var o := FillFrom(decls, zero, LoadFile(vars, Some(Encode(decls, values).value)), 0);
      o.err == None &&
      forall j | 0 <= j < |decls| :: o.values[j] == if decls[j].tag != "" then values[j] else zero[j]
  {
    forall j | 0 <= j < |decls| && decls[j].tag != ""
      ensures TextOk(Format(values[j]))
    {
      FormatTextOk(values[j]);
    }
    MarshalCollectUnmarshal(decls, values, zero, vars);
  }
}
