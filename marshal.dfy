/**
 * Marshal from dotenv.go: one `KEY=VALUE` line per tagged field, in
 * declaration order, a value holding a space being wrapped in double
 * quotes.
 */
module Marshaling {
  import opened Wrappers
  import opened GoStrings
  import opened Records

  datatype MarshalError =
    | NotStruct                    // "dest must be a struct or a pointer to a struct"
    | UnexportedField(name: string) // Interface() panics on an unexported field

  /** The struct Marshal reads: the argument itself or what it points to. */
  function Source(dest: Arg): (t: Option<Struct>)
    ensures t.Some? ==> dest == StructValue(t.value) || dest == Pointer(Some(StructValue(t.value)))
    ensures dest.StructValue? || (dest.Pointer? && dest.to.Some? && dest.to.value.StructValue?) ==> t.Some?
  {
    match dest
    case StructValue(s) => Some(s)
    case Pointer(Some(StructValue(s))) => Some(s)
    case _ => None
  }

  /** The value text, wrapped in double quotes when it holds a space. */
  function QuoteSpaced(text: string): (r: string)
  {
    if Contains(text, ' ') then "\"" + text + "\"" else text
  }

  /** A text holding a space is wrapped in double quotes; any other text,
      other white space included, is written as it is. */
  lemma QuoteSpacedShape(text: string)
    ensures ' ' in text ==> QuoteSpaced(text) == "\"" + text + "\""
    ensures ' ' !in text ==> QuoteSpaced(text) == text
  {
    ContainsIn(text, ' ');
  }

  /** The line of a tagged field, without its newline. */
  function LineOf(d: FieldDecl, v: Scalar): string
  {
    d.tag + "=" + QuoteSpaced(Format(v))
  }

  /** What the builder holds after the first `n` fields. */
  function EncodePrefix(decls: seq<FieldDecl>, values: seq<Scalar>, n: nat): Result<string, MarshalError>
    requires |values| == |decls| && n <= |decls|
  {
    if n == 0 then Success("")
    else
      match EncodePrefix(decls, values, n - 1)
      case Failure(e) => Failure(e)
      case Success(out) =>
        var d := decls[n - 1];
        if d.tag == "" then Success(out)
        else if !d.exported then Failure(UnexportedField(d.name))
        else Success(out + LineOf(d, values[n - 1]) + "\n")
  }

  function Encode(decls: seq<FieldDecl>, values: seq<Scalar>): Result<string, MarshalError>
    requires |values| == |decls|
  {
    EncodePrefix(decls, values, |decls|)
  }

  /** Marshal(dest). */
  method Marshal(dest: Arg) returns (r: Result<string, MarshalError>)
    requires Source(dest).Some? ==> Source(dest).value.Valid()
    ensures Source(dest).None? ==> r == Failure(NotStruct)
    ensures Source(dest).Some? ==> r == Encode(Source(dest).value.decls, Source(dest).value.values)
  {
    var elem := dest;
    if elem.Pointer? {
      if elem.to.None? {
        return Failure(NotStruct);
      }
      elem := elem.to.value;
    }
    if !elem.StructValue? {
      return Failure(NotStruct);
    }
    r := EncodeFields(elem.s);
  }

  /** The loop of Marshal over the fields of the struct. */
  method EncodeFields(rv: Struct) returns (r: Result<string, MarshalError>)
    requires rv.Valid()
    ensures r == Encode(rv.decls, rv.values)
  {
    var decls, values := rv.decls, rv.values;
    var builder := "";
    for i := 0 to |decls|
      invariant EncodePrefix(decls, values, i) == Success(builder)
    {
      var field := decls[i];
      var key := field.tag;
      if key == "" {
        continue;
      }
      if !field.exported {
        EncodeFailureSticks(decls, values, i + 1, |decls|);
        return Failure(UnexportedField(field.name));
      }
      var value := Format(values[i]);
      if Contains(value, ' ') {
        value := "\"" + value + "\"";
      }
      var line := key + "=" + value + "\n";
      EncodeStep(decls, values, i, builder);
      builder := builder + line;
    }
    return Success(builder);
  }

  /** Appending the line of an exported tagged field. */
  lemma EncodeStep(decls: seq<FieldDecl>, values: seq<Scalar>, i: nat, out: string)
    requires |values| == |decls| && i < |decls|
    requires EncodePrefix(decls, values, i) == Success(out)
    requires decls[i].tag != "" && decls[i].exported
    ensures EncodePrefix(decls, values, i + 1) ==
      Success(out + (decls[i].tag + "=" + QuoteSpaced(Format(values[i])) + "\n"))
  {
    var l := LineOf(decls[i], values[i]);
    assert out + l + "\n" == out + (l + "\n");
  }

  /** Once a field fails, the rest of the struct is not looked at. */
  lemma {:induction false} EncodeFailureSticks(decls: seq<FieldDecl>, values: seq<Scalar>, i: nat, n: nat)
    requires |values| == |decls| && i <= n <= |decls|
    requires EncodePrefix(decls, values, i).Failure?
    ensures EncodePrefix(decls, values, n) == EncodePrefix(decls, values, i)
    decreases n - i
  {
    if n > i {
      EncodeFailureSticks(decls, values, i, n - 1);
    }
  }

  /** Tagged fields among the first `n`. */
  function TaggedCount(decls: seq<FieldDecl>, n: nat): (c: nat)
    requires n <= |decls|
    ensures c <= n
  {
    if n == 0 then 0 else TaggedCount(decls, n - 1) + (if decls[n - 1].tag != "" then 1 else 0)
  }

  /** The entries of `xs` that belong to tagged fields among the first
      `n`, in field order. */
  function Tagged<T>(decls: seq<FieldDecl>, xs: seq<T>, n: nat): seq<T>
    requires |xs| == |decls| && n <= |decls|
  {
    if n == 0 then []
    else Tagged(decls, xs, n - 1) + (if decls[n - 1].tag != "" then [xs[n - 1]] else [])
  }

  /** The line of each field, as Marshal would write it if it were tagged. */
  function FieldLines(decls: seq<FieldDecl>, values: seq<Scalar>): (ls: seq<string>)
    requires |values| == |decls|
    ensures |ls| == |decls|
  {
    seq(|decls|, k requires 0 <= k < |decls| => LineOf(decls[k], values[k]))
  }

  /** The lines of the tagged fields among the first `n`, in order. */
  function TaggedLines(decls: seq<FieldDecl>, values: seq<Scalar>, n: nat): seq<string>
    requires |values| == |decls| && n <= |decls|
  {
    Tagged(decls, FieldLines(decls, values), n)
  }

  /** Each line followed by a newline. */
  function Terminated(lines: seq<string>): string
  {
    if lines == [] then "" else Terminated(lines[..|lines| - 1]) + lines[|lines| - 1] + "\n"
  }

  lemma {:induction false} TaggedLength<T>(decls: seq<FieldDecl>, xs: seq<T>, n: nat)
    requires |xs| == |decls| && n <= |decls|
    ensures |Tagged(decls, xs, n)| == TaggedCount(decls, n)
  {
    if n > 0 {
      TaggedLength(decls, xs, n - 1);
    }
  }

  /** A tagged field counts itself, so it is below every later count. */
  lemma {:induction false} TaggedCountBelow(decls: seq<FieldDecl>, j: nat, n: nat)
    requires j < n <= |decls| && decls[j].tag != ""
    ensures TaggedCount(decls, j) < TaggedCount(decls, n)
  {
    if j < n - 1 {
      TaggedCountBelow(decls, j, n - 1);
    }
  }

  /** The tagged field with `k` tagged fields before it owns entry `k`. */
  lemma {:induction false} TaggedAt<T>(decls: seq<FieldDecl>, xs: seq<T>, n: nat, j: nat)
    requires |xs| == |decls| && j < n <= |decls| && decls[j].tag != ""
    ensures TaggedCount(decls, j) < |Tagged(decls, xs, n)|
    ensures Tagged(decls, xs, n)[TaggedCount(decls, j)] == xs[j]
  {
    TaggedCountBelow(decls, j, n);
    TaggedLength(decls, xs, n);
    TaggedLength(decls, xs, n - 1);
    var prev := Tagged(decls, xs, n - 1);
    var k := TaggedCount(decls, j);
    if j < n - 1 {
      TaggedAt(decls, xs, n - 1, j);
      assert Tagged(decls, xs, n)[k] == prev[k];
    } else {
      assert k == |prev|;
    }
  }

  /** The field that owns entry `k`. */
  function TaggedField(decls: seq<FieldDecl>, n: nat, k: nat): (j: nat)
    requires n <= |decls| && k < TaggedCount(decls, n)
    ensures j < n && decls[j].tag != "" && TaggedCount(decls, j) == k
  {
    if decls[n - 1].tag != "" && k == TaggedCount(decls, n - 1) then n - 1
    else TaggedField(decls, n - 1, k)
  }

  /** Every entry comes from the field that owns it. */
  lemma TaggedFrom<T>(decls: seq<FieldDecl>, xs: seq<T>, n: nat, k: nat)
    requires |xs| == |decls| && n <= |decls| && k < |Tagged(decls, xs, n)|
    ensures TaggedCount(decls, n) == |Tagged(decls, xs, n)|
    ensures Tagged(decls, xs, n)[k] == xs[TaggedField(decls, n, k)]
  {
    TaggedLength(decls, xs, n);
    TaggedAt(decls, xs, n, TaggedField(decls, n, k));
  }

  /** One line per tagged field and no other: the tagged field with `k`
      tagged fields before it owns line `k`, and every line is owned. */
  lemma TaggedLinesOrder(decls: seq<FieldDecl>, values: seq<Scalar>, n: nat)
    requires |values| == |decls| && n <= |decls|
    ensures |TaggedLines(decls, values, n)| == TaggedCount(decls, n)
    ensures forall j | 0 <= j < n && decls[j].tag != "" ::
      TaggedCount(decls, j) < TaggedCount(decls, n) &&
      TaggedLines(decls, values, n)[TaggedCount(decls, j)] == LineOf(decls[j], values[j])
    ensures forall k | 0 <= k < TaggedCount(decls, n) ::
      TaggedLines(decls, values, n)[k] == LineOf(decls[TaggedField(decls, n, k)], values[TaggedField(decls, n, k)])
  {
    var ls := FieldLines(decls, values);
    TaggedLength(decls, ls, n);
    forall j | 0 <= j < n && decls[j].tag != ""
      ensures TaggedCount(decls, j) < TaggedCount(decls, n)
      ensures TaggedLines(decls, values, n)[TaggedCount(decls, j)] == LineOf(decls[j], values[j])
    {
      TaggedAt(decls, ls, n, j);
    }
    forall k | 0 <= k < TaggedCount(decls, n)
      ensures TaggedLines(decls, values, n)[k] == LineOf(decls[TaggedField(decls, n, k)], values[TaggedField(decls, n, k)])
    {
      TaggedFrom(decls, ls, n, k);
    }
  }

  /** Marshal fails exactly at the first tagged field that is not
      exported, and names it. */
  lemma EncodeFirstUnexported(decls: seq<FieldDecl>, values: seq<Scalar>, e: nat)
    requires |values| == |decls| && e < |decls|
    requires decls[e].tag != "" && !decls[e].exported
    requires forall j | 0 <= j < e :: decls[j].tag == "" || decls[j].exported
    ensures Encode(decls, values) == Failure(UnexportedField(decls[e].name))
  {
    EncodeReaches(decls, values, e);
    assert EncodePrefix(decls, values, e + 1) == Failure(UnexportedField(decls[e].name));
    EncodeFailureSticks(decls, values, e + 1, |decls|);
  }

  /** Marshal gets past every field that is untagged or exported. */
  lemma {:induction false} EncodeReaches(decls: seq<FieldDecl>, values: seq<Scalar>, n: nat)
    requires |values| == |decls| && n <= |decls|
    requires forall j | 0 <= j < n :: decls[j].tag == "" || decls[j].exported
    ensures EncodePrefix(decls, values, n).Success?
  {
    if n > 0 {
      EncodeReaches(decls, values, n - 1);
    }
  }

  /** When every tagged field is exported Marshal succeeds, and its output
      is the tagged lines, in order, each ended by a newline. */
  lemma {:induction false} EncodeAllExported(decls: seq<FieldDecl>, values: seq<Scalar>, n: nat)
    requires |values| == |decls| && n <= |decls|
    requires forall j | 0 <= j < n :: decls[j].tag == "" || decls[j].exported
    ensures EncodePrefix(decls, values, n) == Success(Terminated(TaggedLines(decls, values, n)))
  {
    if n > 0 {
      EncodeAllExported(decls, values, n - 1);
      EncodeFieldStep(decls, values, n - 1);
    }
  }

  /** One more field keeps the output equal to the terminated lines. */
  lemma EncodeFieldStep(decls: seq<FieldDecl>, values: seq<Scalar>, i: nat)
    requires |values| == |decls| && i < |decls|
    requires decls[i].tag == "" || decls[i].exported
    requires EncodePrefix(decls, values, i) == Success(Terminated(TaggedLines(decls, values, i)))
    ensures EncodePrefix(decls, values, i + 1) == Success(Terminated(TaggedLines(decls, values, i + 1)))
  {
    var ls := FieldLines(decls, values);
    var prev := Tagged(decls, ls, i);
    if decls[i].tag != "" {
      assert Tagged(decls, ls, i + 1) == prev + [ls[i]];
      TerminatedSnoc(prev, ls[i]);
    } else {
      assert Tagged(decls, ls, i + 1) == prev;
    }
  }

  lemma TerminatedSnoc(lines: seq<string>, line: string)
    ensures Terminated(lines + [line]) == Terminated(lines) + line + "\n"
  {
    assert (lines + [line])[..|lines|] == lines;
  }

  /** Lines free of newlines are recovered by splitting the output. */
  lemma {:induction false} SplitTerminated(lines: seq<string>)
    requires forall k | 0 <= k < |lines| :: '\n' !in lines[k]
    ensures Split(Terminated(lines), '\n') == lines + [""]
  {
    TerminatedJoin(lines);
    SplitJoin(lines + [""], '\n');
  }

  lemma {:induction false} TerminatedJoin(lines: seq<string>)
    ensures Terminated(lines) == Join(lines + [""], '\n')
    decreases |lines|
  {
    if lines != [] {
      var init := lines[..|lines| - 1];
      TerminatedJoin(init);
      JoinSnoc(init, lines[|lines| - 1]);
      assert init + [lines[|lines| - 1]] == lines;
    }
  }

  lemma {:induction false} JoinSnoc(init: seq<string>, x: string)
    ensures Join(init + [x] + [""], '\n') == Join(init + [""], '\n') + x + "\n"
    decreases |init|
  {
    if init == [] {
      assert init + [x] + [""] == [x, ""];
      assert Join([x, ""], '\n') == x + ['\n'] + Join([""], '\n');
    } else {
      assert (init + [x] + [""])[1..] == init[1..] + [x] + [""];
      assert (init + [""])[1..] == init[1..] + [""];
      JoinSnoc(init[1..], x);
    }
  }
}
