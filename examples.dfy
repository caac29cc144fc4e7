/** The scenarios of the loader's own tests, proved of the model. */
module Examples {
  import opened Wrappers
  import opened GoStrings
  import opened Strconv
  import opened Environment
  import opened Utils
  import opened Dotenv
  import opened Records
  import opened Unmarshaling
  import opened RoundTrip
  import opened Marshaling

  /** A file holding one line that no newline splits. */
  lemma LoadSingleLine(vars: Vars, line: string)
    requires '\n' !in line && |line| >= 2
    ensures LoadFile(vars, Some(line)) == LoadLine(vars, line)
  {
    SplitJoin([line], '\n');
    assert Join([line], '\n') == line;
    assert LoadLines(vars, [line]) == LoadLine(LoadLines(vars, []), line);
  }

  /** A file holding `export KEY=VALUE` sets KEY to quotes of VALUE. */
  lemma CollectExportLine(vars: Vars, key: string, rest: string)
    requires key != [] && '=' !in key && key[0] != '#' && !IsSpace(key[0])
    requires rest == [] || !IsSpace(rest[|rest| - 1])
    requires '\n' !in key && '\n' !in rest && '\0' !in key && '\0' !in Quotes(rest)
    ensures var loaded := LoadFiles(vars, [Some("export " + key + "=" + rest)]);
      key in loaded && loaded[key] == Quotes(rest)
  {
    var line := "export " + key + "=" + rest;
    ConcatAssoc("export ", key, "=", rest);
    assert '\n' !in line by {
      assert '\n' !in "export " && '\n' !in key + "=" + rest;
    }
    LoadSingleLine(vars, line);
    ParseLineExport(key, rest);
    assert [Some(line)][..0] == [];
  }

  /** Two files that both assign KEY: the value of the second one wins. */
  lemma CollectSecondFileWins(vars: Vars, key: string, first: string, second: string)
    requires key != [] && '=' !in key && key[0] != '#' && !("export " <= key)
    requires '\n' !in key && '\n' !in first && '\n' !in second
    requires '\0' !in key && '\0' !in Quotes(second)
    ensures var loaded := LoadFiles(vars, [Some(key + "=" + first), Some(key + "=" + second)]);
      key in loaded && loaded[key] == Quotes(second)
  {
    var a, b := key + "=" + first, key + "=" + second;
    var files := [Some(a), Some(b)];
    assert files[..1] == [Some(a)] && files[..1][..0] == [];
    assert '\n' !in a && '\n' !in b;
    LoadSingleLine(vars, a);
    LoadSingleLine(LoadFile(vars, Some(a)), b);
    NotExportLine(key, second);
    ParseLineOf(b, key, second);
  }

  /** A port text that does not start with a digit or a sign, such as
      TEST_PORT=not-a-number, makes Unmarshal stop at Port with a syntax
      error, after Host has been set. */
  lemma UnmarshalBadPort(host: string, port: string)
    requires port != "" && !IsDigit(port[0]) && port[0] != '+' && port[0] != '-'
    ensures var decls := [FieldDecl("Host", "TEST_HOST", true), FieldDecl("Port", "TEST_PORT", true)];
      var vars := map["TEST_HOST" := host, "TEST_PORT" := port];
      FillFrom(decls, [Str(""), Int(0)], vars, 0) == Outcome([Str(host), Int(0)], Some(FieldError("Port", ErrSyntax)))
  {
    var decls := [FieldDecl("Host", "TEST_HOST", true), FieldDecl("Port", "TEST_PORT", true)];
    var vars := map["TEST_HOST" := host, "TEST_PORT" := port];
    var values := [Str(""), Int(0)];
    assert Getenv(vars, "TEST_PORT") == port;
    assert ParseInt(port) == Failure(ErrSyntax);
    assert FailsAt(decls, values, vars, 1);
    assert !FailsAt(decls, values, vars, 0);
    FillFromFirstFailure(decls, values, vars, 0, 1);
    var o := FillFrom(decls, values, vars, 0);
    assert o.values[0] == Str(host) && o.values[1] == Int(0);
    assert o.values == [Str(host), Int(0)];
  }

  /** The configuration of the Marshal test, without its float field: one
      line per tagged field in declaration order, the untagged field left
      out. */
  lemma MarshalConfig(host: string, ignored: string)
    requires ' ' !in host
    ensures var decls := [FieldDecl("Host", "TEST_HOST", true), FieldDecl("Port", "TEST_PORT", true),
                          FieldDecl("Debug", "TEST_DEBUG", true), FieldDecl("Ignored", "", true)];
      Encode(decls, [Str(host), Int(9000), Bool(false), Str(ignored)]) ==
        Success(("TEST_HOST" + "=" + host + "\n") + ("TEST_PORT" + "=" + "9000" + "\n") +
                ("TEST_DEBUG" + "=" + "false" + "\n"))
  {
    var decls := [FieldDecl("Host", "TEST_HOST", true), FieldDecl("Port", "TEST_PORT", true),
                  FieldDecl("Debug", "TEST_DEBUG", true), FieldDecl("Ignored", "", true)];
    var values := [Str(host), Int(9000), Bool(false), Str(ignored)];
    ContainsIn(host, ' ');
    assert QuoteSpaced(Format(values[0])) == host;
    assert Format(values[1]) == "9000" by {
      assert Decimal(9) == "9" && Decimal(90) == "90" && Decimal(900) == "900";
    }
    assert QuoteSpaced(Format(values[1])) == "9000" by {
      assert !Contains("9000", ' ');
    }
    assert QuoteSpaced(Format(values[2])) == "false" by {
      assert !Contains("false", ' ');
    }
    var a := "TEST_HOST" + "=" + host + "\n";
    var b := "TEST_PORT" + "=" + "9000" + "\n";
    var c := "TEST_DEBUG" + "=" + "false" + "\n";
    assert EncodePrefix(decls, values, 0) == Success("");
    EncodeStep(decls, values, 0, "");
    assert "" + a == a;
    EncodeStep(decls, values, 1, a);
    EncodeStep(decls, values, 2, a + b);
    assert EncodePrefix(decls, values, 4) == EncodePrefix(decls, values, 3);
  }
}
