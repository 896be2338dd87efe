/** Rewriting calls of Postgres functions into calls of DuckDB's. */
module FunctionRemapper {
  import opened Checkpoint
  import opened QueryTree

  /** What the rewrites look up elsewhere: format strings, and when a table was last synced (0: never). */
  datatype Lookup = Lookup(
    printfFormat: (string, nat) -> string,
    strftimeFormat: string -> string,
    lastSyncedAt: string -> nat)

  // The macros that stand in for functions of pg_catalog

  predicate IsCatalogFunction(name: string) {
    || name == "aclexplode" || name == "current_setting" || name == "pg_backend_pid" || name == "pg_encoding_to_char"
    || name == "pg_get_expr" || name == "pg_get_function_identity_arguments" || name == "pg_get_indexdef"
    || name == "pg_get_partkeydef" || name == "pg_get_userbyid" || name == "pg_get_viewdef"
    || name == "pg_indexes_size" || name == "pg_is_in_recovery" || name == "pg_table_size"
    || name == "pg_tablespace_location" || name == "pg_total_relation_size" || name == "quote_ident"
    || name == "row_to_json" || name == "set_config" || name == "version"
    || name == "pg_get_statisticsobjdef_columns" || name == "pg_relation_is_publishable"
  }

  predicate IsArrayFunction(name: string) {
    || name == "array_upper" || name == "array_lower" || name == "array_remove" || name == "array_replace"
    || name == "array_positions" || name == "array_ndims" || name == "array_dims"
  }

  predicate IsJsonFunction(name: string) {
    || name == "json_build_object" || name == "json_typeof" || name == "jsonb_typeof"
    || name == "json_array_elements" || name == "jsonb_array_elements" || name == "json_array_elements_text"
    || name == "jsonb_array_elements_text" || name == "json_object_keys" || name == "jsonb_object_keys"
    || name == "json_agg" || name == "jsonb_agg" || name == "json_object_agg" || name == "jsonb_object_agg"
    || name == "json_each" || name == "jsonb_each" || name == "json_each_text" || name == "jsonb_each_text"
  }

  predicate IsOtherAlias(name: string) {
    || name == "char_length" || name == "character_length" || name == "btrim" || name == "every" || name == "div"
    || name == "clock_timestamp" || name == "timeofday" || name == "quote_literal" || name == "quote_nullable"
    || name == "initcap" || name == "pg_show_all_settings" || name == "pg_get_keywords"
  }

  predicate IsPgCatalogMacro(name: string) {
    IsCatalogFunction(name) || IsArrayFunction(name) || IsJsonFunction(name) || IsOtherAlias(name)
  }

  predicate IsBuiltin(name: string) {
    name == "array_to_string" || name == "generate_series"
  }

  predicate IsInformationSchemaMacro(name: string) {
    name == "_pg_expandarray"
  }

  datatype Special =
    | Format | Encode | Decode | Cardinality | ToChar | ToDate | ToTimestamp | ExtractPathText | LastSyncedAt
    | NotSpecial

  function SpecialOf(name: string): Special {
    if name == "format" then Format
    else if name == "encode" then Encode
    else if name == "decode" then Decode
    else if name == "cardinality" then Cardinality
    else if name == "to_char" then ToChar
    else if name == "to_date" then ToDate
    else if name == "to_timestamp" then ToTimestamp
    else if name == "jsonb_extract_path_text" || name == "json_extract_path_text" then ExtractPathText
    else if name == "bemidb_last_synced_at" then LastSyncedAt
    else NotSpecial
  }

  predicate IsMacro(c: Call) {
    if c.schema == "pg_catalog" || c.schema == "" then IsPgCatalogMacro(c.name) || IsBuiltin(c.name)
    else c.schema == "information_schema" && IsInformationSchemaMacro(c.name)
  }

  function FirstArgumentToString(args: seq<Expr>): string {
    if |args| < 1 then "" else if args[0].Const? && args[0].constant.Text? then args[0].constant.s else ""
  }

  function ConstStringValue(e: Expr): string {
    match e
    case Const(Text(s)) => s
    case TypeCast(Some(Const(Text(s))), _) => s
    case _ => ""
  }

  /** The path "$.a.b", unless a part is not a non-empty constant. */
  function JsonPath(parts: seq<Expr>): Option<string> {
    if parts == [] then Some("$")
    else
      var init, last := JsonPath(parts[..|parts| - 1]), ConstStringValue(parts[|parts| - 1]);
      if init.None? || last == "" then None else Some(init.value + "." + last)
  }

  function PathArguments(c: Call): seq<Expr>
    requires |c.args| >= 2
  {
    var path := if c.args[1].TypeCast? then c.args[1].value else Some(c.args[1]);
    if c.variadic && path.Some? && path.value.ArrayOf? then path.value.elements else c.args[1..]
  }

  function Bare(name: string, args: seq<Expr>, variadic: bool): Call {
    Call("", name, args, variadic)
  }

  /** to_char, to_date and to_timestamp with a constant format. */
  function RemapFormatted(lookup: Lookup, c: Call, name: string): Call {
    if |c.args| != 2 || ConstStringValue(c.args[1]) == "" then c
    else Bare(name, [c.args[0], Const(Text(lookup.strftimeFormat(ConstStringValue(c.args[1]))))], c.variadic)
  }

  function RemapEncode(c: Call): Call {
    if |c.args| != 2 then c
    else
      var format, first := ConstStringValue(c.args[1]), c.args[0];
      if first.FuncCall? && format == "hex" && first.call.name == "sha256" then
        Call(first.call.schema, first.call.name, first.call.args, c.variadic)
      else if format == "hex" then Bare("lower", [FuncCall(Bare("hex", [first], false))], c.variadic)
      else if format == "base64" then Bare("base64", [first], c.variadic)
      else c
  }

  function RemapDecode(c: Call): Call {
    if |c.args| != 2 then c
    else
      var format := ConstStringValue(c.args[1]);
      if format == "hex" then Bare("unhex", c.args[..1], c.variadic)
      else if format == "base64" then Bare("from_base64", c.args[..1], c.variadic)
      else c
  }

  function RemapExtractPathText(c: Call): Call {
    if |c.args| < 2 then c
    else
      var path := JsonPath(PathArguments(c));
      if path.None? then c else Bare("json_extract_string", [c.args[0], Const(Text(path.value))], false)
  }

  function TimestampArgument(timestamp: nat): Expr {
    Const(if timestamp == 0 then Null else Number(timestamp))
  }

  /** `Ignored` is the nil result: the function is none that is rewritten. The source indexes the first
    * argument of two functions without looking whether there is one. */
  datatype Rewrite = Ignored | Handled(call: Call) | Panics

  function RemapFunctionCall(lookup: Lookup, c: Call): Rewrite {
    if IsMacro(c) then Handled(c.(schema := "main"))
    else
      match SpecialOf(c.name)
      case Format =>
        if |c.args| == 0 then Panics
        else
          var format := lookup.printfFormat(FirstArgumentToString(c.args), |c.args| - 1);
          Handled(Bare("printf", [Const(Text(format))] + c.args[1..], c.variadic))
      case Encode => Handled(RemapEncode(c))
      case Decode => Handled(RemapDecode(c))
      case Cardinality => Handled(Bare("len", c.args, c.variadic))
      case ToChar => Handled(RemapFormatted(lookup, c, "strftime"))
      case ToDate => Handled(RemapFormatted(lookup, c, "strptime"))
      case ToTimestamp => if |c.args| == 2 then Handled(RemapFormatted(lookup, c, "strptime")) else Ignored
      case ExtractPathText => Handled(RemapExtractPathText(c))
      case LastSyncedAt =>
        if |c.args| == 0 then Panics
        else
          var timestamp := lookup.lastSyncedAt(FirstArgumentToString(c.args));
          Handled(Bare("to_timestamp", [TimestampArgument(timestamp)] + c.args[1..], c.variadic))
      case NotSpecial => Ignored
  }

  /** The call in place of which the rewriter leaves its result. */
  function Rewritten(lookup: Lookup, c: Call): Call {
    match RemapFunctionCall(lookup, c)
    case Handled(call) => call
    case _ => c
  }

  // A second visit

  /** The one call whose rewritten form is rewritten again: to_timestamp with two arguments is taken
    * for the Postgres function that parses a text. */
  predicate StampsTwice(c: Call) {
    !IsMacro(c) && SpecialOf(c.name) == LastSyncedAt && |c.args| == 2 && ConstStringValue(c.args[1]) != ""
  }

  predicate IsReplacement(name: string) {
    || name == "printf" || name == "lower" || name == "base64" || name == "unhex" || name == "from_base64"
    || name == "len" || name == "strftime" || name == "strptime" || name == "json_extract_string" || name == "sha256"
  }

  /** Two letters and the length tell the macros from all other names that matter here. */
  predicate SpelledLikeMacro(name: string) {
    && |name| > 2
    && if name[0] == 'j' then |name| !in {22, 23} && (|name| == 19 ==> name[5] == 'a')
       else match name[0]
         case 'f' | 'l' | 'u' => false
         case 'e' => name[1] == 'v'
         case 'd' => name[1] == 'i'
         case 'c' => name[1] != 'a'
         case 't' => name[1] == 'i'
         case 'b' => name[1] == 't'
         case 'p' => name[1] == 'g'
         case 's' => name[1] == 'e'
         case _ => true
  }

  lemma MacroSpelling(name: string)
    requires IsPgCatalogMacro(name) || IsBuiltin(name) || IsInformationSchemaMacro(name)
    ensures SpelledLikeMacro(name)
    ensures if name[0] == '_' then IsInformationSchemaMacro(name) && !IsPgCatalogMacro(name) && !IsBuiltin(name)
            else !IsInformationSchemaMacro(name)
  {
    hide IsCatalogFunction, IsArrayFunction, IsJsonFunction, IsOtherAlias;
    if IsCatalogFunction(name) {
      CatalogSpelling(name);
    } else if IsArrayFunction(name) {
      ArraySpelling(name);
    } else if IsJsonFunction(name) {
      JsonSpelling(name);
    } else if IsOtherAlias(name) {
      AliasSpelling(name);
    }
  }

  lemma CatalogSpelling(name: string)
    requires IsCatalogFunction(name)
    ensures SpelledLikeMacro(name) && name[0] != '_'
  {
  }

  lemma ArraySpelling(name: string)
    requires IsArrayFunction(name)
    ensures SpelledLikeMacro(name) && name[0] != '_'
  {
  }

  lemma JsonSpelling(name: string)
    requires IsJsonFunction(name)
    ensures SpelledLikeMacro(name) && name[0] != '_'
  {
  }

  lemma AliasSpelling(name: string)
    requires IsOtherAlias(name)
    ensures SpelledLikeMacro(name) && name[0] != '_'
  {
  }

  lemma SpecialSpelling(name: string)
    requires SpecialOf(name) != NotSpecial
    ensures !SpelledLikeMacro(name)
  {
  }

  /** What the rewriter produces is not its own input. */
  lemma ReplacementsAreFinal(c: Call)
    requires IsReplacement(c.name)
    ensures SpecialOf(c.name) == NotSpecial && !IsMacro(c)
  {
    hide IsPgCatalogMacro, IsBuiltin, IsInformationSchemaMacro;
    assert !SpelledLikeMacro(c.name);
    if IsMacro(c) {
      MacroSpelling(c.name);
    }
    var n, a := |c.name|, c.name[0];
    if n > 5 {
      var b := c.name[5];
    }
  }

  lemma MacrosAreNotSpecial(c: Call)
    requires IsMacro(c)
    ensures SpecialOf(c.name) == NotSpecial
  {
    hide IsPgCatalogMacro, IsBuiltin, IsInformationSchemaMacro, SpelledLikeMacro, SpecialOf;
    MacroSpelling(c.name);
    if SpecialOf(c.name) != NotSpecial {
      SpecialSpelling(c.name);
    }
  }

  lemma ToTimestampIsSpecial(c: Call)
    requires c.name == "to_timestamp"
    ensures !IsMacro(c) && SpecialOf(c.name) == ToTimestamp
  {
    hide IsPgCatalogMacro, IsBuiltin, IsInformationSchemaMacro;
    assert !SpelledLikeMacro(c.name);
    if IsMacro(c) {
      MacroSpelling(c.name);
    }
  }

  lemma ReplacementIsIgnored(lookup: Lookup, c: Call)
    requires IsReplacement(c.name)
    ensures RemapFunctionCall(lookup, c) == Ignored
  {
    hide SpecialOf, IsMacro, IsReplacement;
    ReplacementsAreFinal(c);
  }

  lemma MacroIsFinal(lookup: Lookup, c: Call)
    requires IsMacro(c)
    ensures RemapFunctionCall(lookup, c.(schema := "main")) == Ignored
  {
    hide SpecialOf, IsPgCatalogMacro, IsBuiltin, IsInformationSchemaMacro;
    MacrosAreNotSpecial(c);
    assert |"main"| == 4 && |"pg_catalog"| == 10 && |"information_schema"| == 18;
    assert !IsMacro(c.(schema := "main"));
  }

  /** Where the result comes from: it is unchanged, a macro, one of the replacements, or a timestamp. */
  lemma Results(lookup: Lookup, c: Call)
    ensures var r := Rewritten(lookup, c);
      || r == c
      || (IsMacro(c) && r == c.(schema := "main"))
      || IsReplacement(r.name)
      || (!IsMacro(c) && SpecialOf(c.name) == LastSyncedAt && |c.args| > 0 && r.name == "to_timestamp" && r.schema == ""
          && |r.args| == |c.args| && r.args[1..] == c.args[1..])
  {
    hide SpecialOf, IsMacro, JsonPath, PathArguments, ConstStringValue, FirstArgumentToString;
  }

  /** A second visit changes nothing, except for the one call that is stamped twice. */
  lemma SecondVisit(lookup: Lookup, c: Call)
    ensures Rewritten(lookup, Rewritten(lookup, c)) == Rewritten(lookup, c) <==> !StampsTwice(c)
    ensures StampsTwice(c) ==>
      && Rewritten(lookup, c).name == "to_timestamp"
      && Rewritten(lookup, Rewritten(lookup, c)).name == "strptime"
      && RemapFunctionCall(lookup, Rewritten(lookup, c)).Handled?
  {
    hide SpecialOf, IsMacro, IsReplacement, ConstStringValue;
    var r := Rewritten(lookup, c);
    Results(lookup, c);
    if IsMacro(c) {
      MacroIsFinal(lookup, c);
    } else if IsReplacement(r.name) {
      ReplacementIsIgnored(lookup, r);
      SecondVisitOfReplaced(lookup, c);
    } else if r != c {
      ToTimestampIsSpecial(r);
      if |r.args| == 2 {
        assert r.args[1] == r.args[1..][0] == c.args[1..][0] == c.args[1];
      }
      assert |"to_timestamp"| == 12 && |"strptime"| == 8;
    } else {
      SecondVisitOfUnchanged(lookup, c);
    }
  }

  lemma SecondVisitOfReplaced(lookup: Lookup, c: Call)
    requires IsReplacement(Rewritten(lookup, c).name)
    ensures !StampsTwice(c)
  {
    hide IsMacro, IsReplacement, ConstStringValue, SpecialOf;
    if StampsTwice(c) {
      TimestampIsNoReplacement();
    }
  }

  lemma TimestampIsNoReplacement()
    ensures !IsReplacement("to_timestamp")
  {
  }

  lemma SecondVisitOfUnchanged(lookup: Lookup, c: Call)
    requires Rewritten(lookup, c) == c
    ensures !StampsTwice(c)
  {
    hide IsMacro, ConstStringValue;
    var n := |c.name|;
  }

  // The documented rewrites

  lemma SpecialsAreNoMacros(c: Call)
    requires SpecialOf(c.name) != NotSpecial
    ensures !IsMacro(c)
  {
    hide SpecialOf, IsMacro;
    if IsMacro(c) {
      MacrosAreNotSpecial(c);
    }
  }

  /** The hex and base64 functions, in any schema and with a plain or a cast format: DuckDB's sha256 is in hex
    * already, and any other format is left alone. */
  lemma EncodingsAreRewritten(lookup: Lookup, schema: string, x: Expr, format: Expr, variadic: bool)
    ensures var encode := Rewritten(lookup, Call(schema, "encode", [x, format], variadic));
      match ConstStringValue(format)
      case "hex" =>
        if x.FuncCall? && x.call.name == "sha256" then encode == Call(x.call.schema, "sha256", x.call.args, variadic)
        else encode == Bare("lower", [FuncCall(Bare("hex", [x], false))], variadic)
      case "base64" => encode == Bare("base64", [x], variadic)
      case _ => encode == Call(schema, "encode", [x, format], variadic)
    ensures var decode := Rewritten(lookup, Call(schema, "decode", [x, format], variadic));
      match ConstStringValue(format)
      case "hex" => decode == Bare("unhex", [x], variadic)
      case "base64" => decode == Bare("from_base64", [x], variadic)
      case _ => decode == Call(schema, "decode", [x, format], variadic)
  {
    hide IsMacro, ConstStringValue;
    assert SpecialOf("encode") == Encode && SpecialOf("decode") == Decode by { SpellEncodings(); }
    hide SpecialOf;
    forall c: Call | c.name == "encode" || c.name == "decode" ensures !IsMacro(c) {
      SpecialsAreNoMacros(c);
    }
    assert |"hex"| == 3 && |"base64"| == 6;
    assert [x, format][..1] == [x];
  }

  lemma SpellEncodings()
    ensures SpecialOf("encode") == Encode && SpecialOf("decode") == Decode
  {
    assert |"format"| == |"encode"| == |"decode"| && "format"[0] == 'f' && "encode"[0] == 'e' && "decode"[0] == 'd';
  }

  /** Dates with a constant format, in any schema; the one-argument to_timestamp is DuckDB's own. */
  lemma DatesAreRewritten(lookup: Lookup, schema: string, x: Expr, format: Expr, variadic: bool)
    requires ConstStringValue(format) != ""
    ensures var formatted := [x, Const(Text(lookup.strftimeFormat(ConstStringValue(format))))];
      && Rewritten(lookup, Call(schema, "to_char", [x, format], variadic)) == Bare("strftime", formatted, variadic)
      && Rewritten(lookup, Call(schema, "to_date", [x, format], variadic)) == Bare("strptime", formatted, variadic)
      && Rewritten(lookup, Call(schema, "to_timestamp", [x, format], variadic)) == Bare("strptime", formatted, variadic)
      && RemapFunctionCall(lookup, Call(schema, "to_timestamp", [x], variadic)) == Ignored
  {
    hide IsMacro, ConstStringValue;
    assert SpecialOf("to_char") == ToChar && SpecialOf("to_date") == ToDate by { SpellDates(); }
    hide SpecialOf;
    forall c: Call | c.name == "to_char" || c.name == "to_date" ensures !IsMacro(c) {
      SpecialsAreNoMacros(c);
    }
    ToTimestampIsSpecial(Call(schema, "to_timestamp", [x], variadic));
    ToTimestampIsSpecial(Call(schema, "to_timestamp", [x, format], variadic));
  }

  lemma SpellDates()
    ensures SpecialOf("to_char") == ToChar && SpecialOf("to_date") == ToDate
  {
    assert |"to_char"| == |"to_date"| == 7 && "to_char"[3] == 'c' && "to_date"[3] == 'd';
    assert |"format"| == |"encode"| == |"decode"| == 6 && |"cardinality"| == 11;
  }

  // Paths

  function Join(texts: seq<string>, separator: string): string {
    if texts == [] then ""
    else if |texts| == 1 then texts[0]
    else Join(texts[..|texts| - 1], separator) + separator + texts[|texts| - 1]
  }

  function Values(parts: seq<Expr>): (texts: seq<string>)
    ensures |texts| == |parts| && forall i :: 0 <= i < |texts| ==> texts[i] == ConstStringValue(parts[i])
  {
    seq(|parts|, i requires 0 <= i < |parts| => ConstStringValue(parts[i]))
  }

  /** The path is the parts joined to "$" by dots, and exists if and only if each of them is a constant, non-empty
    * text. */
  lemma {:induction false} JsonPathIff(parts: seq<Expr>)
    ensures JsonPath(parts).Some? <==> forall i :: 0 <= i < |parts| ==> ConstStringValue(parts[i]) != ""
    ensures JsonPath(parts).Some? ==> JsonPath(parts).value == Join(["$"] + Values(parts), ".")
  {
    hide ConstStringValue;
    if parts != [] {
      var init, texts := parts[..|parts| - 1], ["$"] + Values(parts);
      JsonPathIff(init);
      assert forall i :: 0 <= i < |init| ==> parts[i] == init[i];
      assert texts[..|texts| - 1] == ["$"] + Values(init);
    }
  }

  /** A path is given as arguments, or as a variadic array, with or without a cast. Of constants it becomes one JSON
    * path, however long; any other call is left alone. */
  lemma PathsAreRewritten(lookup: Lookup, c: Call, parts: seq<Expr>)
    requires c.name == "jsonb_extract_path_text" || c.name == "json_extract_path_text"
    requires |c.args| >= 2
    requires
      || (!c.variadic && c.args[1..] == parts)
      || (c.variadic && c.args[1] == ArrayOf(parts))
      || (c.variadic && c.args[1].TypeCast? && c.args[1].value == Some(ArrayOf(parts)))
    ensures Rewritten(lookup, c) ==
      if forall i :: 0 <= i < |parts| ==> ConstStringValue(parts[i]) != "" then
        Bare("json_extract_string", [c.args[0], Const(Text(Join(["$"] + Values(parts), ".")))], false)
      else c
  {
    hide IsMacro, ConstStringValue, JsonPath, Join;
    assert SpecialOf(c.name) == ExtractPathText by { SpellPaths(); }
    hide SpecialOf;
    SpecialsAreNoMacros(c);
    assert PathArguments(c) == parts;
    JsonPathIff(parts);
  }

  lemma SpellPaths()
    ensures SpecialOf("jsonb_extract_path_text") == ExtractPathText && SpecialOf("json_extract_path_text") == ExtractPathText
  {
    assert |"jsonb_extract_path_text"| == 23 && |"json_extract_path_text"| == 22;
    assert |"format"| == |"encode"| == |"decode"| == 6 && |"cardinality"| == 11;
    assert |"to_char"| == |"to_date"| == 7 && |"to_timestamp"| == 12;
  }

  /** format, cardinality, and the time of the last sync, in any schema and with any further arguments. Two of
    * them panic without arguments. */
  lemma OthersAreRewritten(lookup: Lookup, schema: string, args: seq<Expr>, variadic: bool)
    ensures Rewritten(lookup, Call(schema, "cardinality", args, variadic)) == Bare("len", args, variadic)
    ensures args == [] ==>
      && RemapFunctionCall(lookup, Call(schema, "format", args, variadic)) == Panics
      && RemapFunctionCall(lookup, Call(schema, "bemidb_last_synced_at", args, variadic)) == Panics
    ensures args != [] ==>
      var format, syncedAt := lookup.printfFormat(FirstArgumentToString(args), |args| - 1),
                              lookup.lastSyncedAt(FirstArgumentToString(args));
      && Rewritten(lookup, Call(schema, "format", args, variadic)) == Bare("printf", args[0 := Const(Text(format))], variadic)
      && Rewritten(lookup, Call(schema, "bemidb_last_synced_at", args, variadic))
         == Bare("to_timestamp", args[0 := Const(if syncedAt == 0 then Null else Number(syncedAt))], variadic)
  {
    hide IsMacro, FirstArgumentToString;
    assert SpecialOf("format") == Format && SpecialOf("cardinality") == Cardinality
      && SpecialOf("bemidb_last_synced_at") == LastSyncedAt by { SpellOthers(); }
    hide SpecialOf;
    forall c: Call | c.name == "format" || c.name == "cardinality" || c.name == "bemidb_last_synced_at" ensures !IsMacro(c) {
      SpecialsAreNoMacros(c);
    }
    if args != [] {
      assert forall e :: [e] + args[1..] == args[0 := e];
    }
  }

  lemma SpellOthers()
    ensures SpecialOf("format") == Format && SpecialOf("cardinality") == Cardinality
    ensures SpecialOf("bemidb_last_synced_at") == LastSyncedAt
  {
    assert |"jsonb_extract_path_text"| == 23 && |"json_extract_path_text"| == 22 && |"bemidb_last_synced_at"| == 21;
    assert |"format"| == |"encode"| == |"decode"| == 6 && |"cardinality"| == 11;
    assert |"to_char"| == |"to_date"| == 7 && |"to_timestamp"| == 12;
  }

  /** Every macro is called in the main schema from the schemas that have it, and left alone in any other. */
  lemma MacrosMoveToMain(lookup: Lookup, c: Call)
    ensures IsPgCatalogMacro(c.name) || IsBuiltin(c.name) ==>
      RemapFunctionCall(lookup, c) == if c.schema in {"", "pg_catalog"} then Handled(c.(schema := "main")) else Ignored
    ensures IsInformationSchemaMacro(c.name) ==>
      RemapFunctionCall(lookup, c) == if c.schema == "information_schema" then Handled(c.(schema := "main")) else Ignored
  {
    hide IsPgCatalogMacro, IsBuiltin, IsInformationSchemaMacro, SpecialOf, SpelledLikeMacro;
    assert |"information_schema"| == 18 && |"pg_catalog"| == 10 && |""| == 0;
    if IsPgCatalogMacro(c.name) || IsBuiltin(c.name) || IsInformationSchemaMacro(c.name) {
      MacroSpelling(c.name);
      if SpecialOf(c.name) != NotSpecial {
        SpecialSpelling(c.name);
      }
    }
  }

  /** A constant text is read plain or through a cast, and nothing else is. */
  lemma ConstantsAreRead(e: Expr, text: string, typeName: string)
    ensures ConstStringValue(Const(Text(text))) == text
    ensures ConstStringValue(TypeCast(Some(Const(Text(text))), typeName)) == text
    ensures FirstArgumentToString([Const(Text(text)), e]) == text
    ensures !e.Const? && !e.TypeCast? ==> ConstStringValue(e) == "" && FirstArgumentToString([e]) == ""
  {
  }

  const SPECIAL_NAMES := [
    "format", "encode", "decode", "cardinality", "to_char", "to_date", "to_timestamp", "jsonb_extract_path_text",
    "json_extract_path_text", "bemidb_last_synced_at"]

  /** Any other call is left alone: of another function, of one of these with another number of arguments, or with a
    * format that is not constant. */
  lemma OtherCallsAreLeftAlone(lookup: Lookup, c: Call)
    ensures !IsMacro(c) && c.name !in SPECIAL_NAMES ==> RemapFunctionCall(lookup, c) == Ignored
    ensures c.name in ["encode", "decode", "to_char", "to_date", "to_timestamp"] && |c.args| != 2 ==> Rewritten(lookup, c) == c
    ensures c.name in ["to_char", "to_date", "to_timestamp"] && |c.args| == 2 && ConstStringValue(c.args[1]) == "" ==>
      Rewritten(lookup, c) == c
    ensures c.name in ["jsonb_extract_path_text", "json_extract_path_text"] && |c.args| < 2 ==> Rewritten(lookup, c) == c
  {
    hide IsMacro, ConstStringValue, JsonPath, PathArguments, FirstArgumentToString;
    SpellDates();
    SpellPaths();
    SpellEncodings();
    if c.name == "to_timestamp" {
      ToTimestampIsSpecial(c);
    }
    if SpecialOf(c.name) != NotSpecial {
      SpecialsAreNoMacros(c);
    }
  }

  /** The shapes of rewritten arguments: the first one exchanged for a constant, the second one for a constant
    * or for nothing, the first one wrapped, or those of the first one. */
  predicate Reshaped(args: seq<Expr>, r: seq<Expr>) {
    || r == args
    || (|args| > 0 && |r| > 0 && r[0].Const? && r[1..] == args[1..])
    || (|args| > 1 && |r| == 2 && r[0] == args[0] && r[1].Const?)
    || (|args| == 2 && (r == [args[0]] || r == [FuncCall(Bare("hex", [args[0]], false))]))
    || (|args| == 2 && args[0].FuncCall? && r == args[0].call.args)
  }

  lemma RewrittenIsReshaped(lookup: Lookup, c: Call)
    ensures Reshaped(c.args, Rewritten(lookup, c).args)
  {
    hide SpecialOf, IsMacro, JsonPath, PathArguments, ConstStringValue, FirstArgumentToString;
  }

  /** Rewriting never makes the arguments larger than the call was. */
  lemma RewrittenIsSmaller(lookup: Lookup, c: Call)
    ensures SizeOfAll(Rewritten(lookup, c).args) < SizeOfCall(c)
  {
    hide Rewritten, Size, SizeOfAll;
    RewrittenIsReshaped(lookup, c);
    var args, r := c.args, Rewritten(lookup, c).args;
    if r != args {
      SizeOfCons(args[0], args[1..]);
      assert args == [args[0]] + args[1..];
      if |args| > 1 {
        SizeOfCons(args[1], args[2..]);
        assert args[1..] == [args[1]] + args[2..];
      }
      if |r| > 0 && r[1..] == args[1..] && r[0].Const? {
        SizeOfCons(r[0], r[1..]);
        assert r == [r[0]] + r[1..];
        SizeOfConst(r[0]);
      } else if |r| == 2 && r[0] == args[0] && r[1].Const? {
        SizeOfTwo(r[0], r[1]);
        SizeOfConst(r[1]);
        assert r == [r[0], r[1]];
      } else if |r| == 1 {
        SizeOfOne(r[0]);
        SizeOfHex(args[0]);
      }
      if args[0].FuncCall? {
        SizeOfFuncCall(args[0].call);
      }
    }
  }

  lemma SizeOfCons(e: Expr, es: seq<Expr>)
    ensures SizeOfAll([e] + es) == Size(e) + SizeOfAll(es)
  {
    assert ([e] + es)[1..] == es;
  }

  lemma SizeOfOne(e: Expr)
    ensures SizeOfAll([e]) == Size(e)
  {
  }

  lemma SizeOfTwo(a: Expr, b: Expr)
    ensures SizeOfAll([a, b]) == Size(a) + Size(b)
  {
    SizeOfOne(b);
    SizeOfCons(a, [b]);
    assert [a] + [b] == [a, b];
  }

  lemma SizeOfConst(e: Expr)
    ensures e.Const? ==> Size(e) == 1
  {
  }

  lemma SizeOfFuncCall(c: Call)
    ensures Size(FuncCall(c)) == 1 + SizeOfAll(c.args)
  {
  }

  lemma SizeOfHex(e: Expr)
    ensures Size(FuncCall(Bare("hex", [e], false))) == 1 + Size(e)
  {
    SizeOfOne(e);
  }
}
