/** The text Coolify writes for a value, spelled out character by character. */
module EnvTexts {
  import opened Wrappers
  import opened Text
  import opened EnvEncoding

  /** A text put together from what each character becomes. */
  function Spelled(value: string, image: char -> string): string {
    if value == "" then "" else image(value[0]) + Spelled(value[1..], image)
  }

  lemma {:induction false} TranslateIsSpelled(value: string, pairs: seq<(char, string)>, image: char -> string)
    requires forall c :: Lookup(c, pairs) == image(c)
    ensures Translate(value, pairs) == Spelled(value, image)
  {
    if value != "" {
      TranslateIsSpelled(value[1..], pairs, image);
    }
  }

  lemma {:induction false} ReplaceIsSpelled(value: string, c: char, t: string, image: char -> string)
    requires forall d :: image(d) == if d == c then t else [d]
    ensures Replace(value, c, t) == Spelled(value, image)
  {
    if value != "" {
      ReplaceIsSpelled(value[1..], c, t, image);
    }
  }

  // ── which values are protected ─────────────────────────────────────────────

  /** A JSON object or array, with white space before it or none. */
  ghost predicate IsJsonBlock(value: string, isJson: string -> bool) {
    isJson(value) && exists k :: BlockAt(value, k)
  }

  ghost predicate BlockAt(value: string, k: int) {
    0 <= k < |value| && value[k] in ['{', '['] && forall j :: 0 <= j < k ==> value[j] in [' ', '\t', '\n', '\r', '\0', '\U{000B}']
  }

  /** No reader of the text may expand a variable in this value. */
  ghost predicate Protected(row: Row, value: string, isJson: string -> bool) {
    row.isLiteral || row.isMultiline || IsJsonBlock(value, isJson)
  }

  lemma {:induction false} StrippedBlock(value: string)
    ensures OpensJson(StripLeft(value)) <==> exists k :: BlockAt(value, k)
  {
    if value != "" && value[0] in PHP_WHITESPACE {
      StrippedBlock(value[1..]);
      if k :| BlockAt(value[1..], k) {
        assert forall j :: 0 < j < k + 1 ==> value[j] == value[1..][j - 1];
        assert BlockAt(value, k + 1);
      }
      if k :| BlockAt(value, k) {
        assert forall j :: 0 <= j < k - 1 ==> value[1..][j] == value[j + 1];
        assert BlockAt(value[1..], k - 1);
      }
    } else if value != "" {
      if OpensJson(value) {
        assert BlockAt(value, 0);
      }
    }
  }

  lemma {:induction false} ProtectedIsNotInterpolated(row: Row, value: string, isJson: string -> bool)
    ensures Protected(row, value, isJson) <==> !AllowsInterpolation(row, value, isJson)
  {
    StrippedBlock(value);
  }

  // ── the exact forms ────────────────────────────────────────────────────────

  /** In the dotenv file a value stands between double quotes, each backslash and each double quote
      behind one backslash; so does each dollar sign of a protected value, and of no other. */
  lemma {:induction false} ExactDotenvText(row: Row, value: string, isJson: string -> bool)
    requires !row.legacy
    ensures Protected(row, value, isJson) ==>
              Encode(row, value, Dotenv, isJson) == "\"" + Spelled(value, c => if c in ['\\', '"', '$'] then ['\\', c] else [c]) + "\""
    ensures !Protected(row, value, isJson) ==>
              Encode(row, value, Dotenv, isJson) == "\"" + Spelled(value, c => if c in ['\\', '"'] then ['\\', c] else [c]) + "\""
  {
    ProtectedIsNotInterpolated(row, value, isJson);
    if Protected(row, value, isJson) {
      SpelledLiteral(value);
    } else {
      SpelledExact(value);
    }
  }

  lemma {:induction false} SpelledExact(value: string)
    ensures ReplaceEach(value, COMPOSE_ESCAPES) == Spelled(value, c => if c in ['\\', '"'] then ['\\', c] else [c])
  {
    SequentialIsTable(value, COMPOSE_ESCAPES);
    forall c ensures Lookup(c, COMPOSE_ESCAPES) == if c in ['\\', '"'] then ['\\', c] else [c] {
      LookupExact(c);
    }
    TranslateIsSpelled(value, COMPOSE_ESCAPES, c => if c in ['\\', '"'] then ['\\', c] else [c]);
  }

  lemma {:induction false} SpelledLiteral(value: string)
    ensures ReplaceEach(value, COMPOSE_ESCAPES_LITERAL) ==
            Spelled(value, c => if c in ['\\', '"', '$'] then ['\\', c] else [c])
  {
    SequentialIsTable(value, COMPOSE_ESCAPES_LITERAL);
    forall c ensures Lookup(c, COMPOSE_ESCAPES_LITERAL) == if c in ['\\', '"', '$'] then ['\\', c] else [c] {
      LookupLiteral(c);
    }
    TranslateIsSpelled(value, COMPOSE_ESCAPES_LITERAL, c => if c in ['\\', '"', '$'] then ['\\', c] else [c]);
  }

  lemma {:induction false} LookupExact(c: char)
    ensures Lookup(c, COMPOSE_ESCAPES) == if c in ['\\', '"'] then ['\\', c] else [c]
  {
    var e := COMPOSE_ESCAPES;
    assert e == [e[0]] + e[1..] && e[1..] == [e[1]] + [];
    LookupStep(c, e[0], e[1..]);
    LookupStep(c, e[1], []);
  }

  lemma {:induction false} LookupLiteral(c: char)
    ensures Lookup(c, COMPOSE_ESCAPES_LITERAL) == if c in ['\\', '"', '$'] then ['\\', c] else [c]
  {
    var e := COMPOSE_ESCAPES_LITERAL;
    assert e == [e[0]] + e[1..] && e[1..] == [e[1]] + e[2..] && e[2..] == [e[2]] + [];
    LookupStep(c, e[0], e[1..]);
    LookupStep(c, e[1], e[2..]);
    LookupStep(c, e[2], []);
  }

  /** In the Compose file a protected value has each dollar sign twice; any other is as it is. */
  lemma {:induction false} ExactComposeText(row: Row, value: string, isJson: string -> bool)
    requires !row.legacy
    ensures Encode(row, value, Compose, isJson) ==
            if Protected(row, value, isJson) then Spelled(value, c => if c == '$' then "$$" else [c]) else value
  {
    ProtectedIsNotInterpolated(row, value, isJson);
    ReplaceIsSpelled(value, '$', "$$", c => if c == '$' then "$$" else [c]);
  }

  // ── the legacy forms ───────────────────────────────────────────────────────

  /** Before exact escaping: a JSON object or array as it is; a literal or multiline value between
      single quotes, as it is; of any other, six characters behind a backslash. */
  lemma {:induction false} LegacyText(row: Row, value: string, kind: FileKind, isJson: string -> bool)
    requires row.legacy
    ensures var block := value != "" && value[0] in ['{', '['] && isJson(value);
            && (block ==> Encode(row, value, kind, isJson) == value)
            && (!block && (row.isLiteral || row.isMultiline) ==> Encode(row, value, kind, isJson) == "'" + value + "'")
            && (!block && !row.isLiteral && !row.isMultiline ==>
                  Encode(row, value, kind, isJson) ==
                  Spelled(value, c => if c in ['\\', '"', '\''] then ['\\', c]
                                      else if c == '\r' then "\\r" else if c == '\t' then "\\t" else if c == '\0' then "\\0"
                                      else [c]))
  {
    if !row.isLiteral && !row.isMultiline {
      SpelledLegacy(value);
    }
  }

  lemma {:induction false} SpelledLegacy(value: string)
    ensures EscapeEnvVariables(value) ==
            Spelled(value, c => if c in ['\\', '"', '\''] then ['\\', c]
                                else if c == '\r' then "\\r" else if c == '\t' then "\\t" else if c == '\0' then "\\0"
                                else [c])
  {
    forall c ensures Lookup(c, ENV_ESCAPES) == (if c in ['\\', '"', '\''] then ['\\', c]
                       else if c == '\r' then "\\r" else if c == '\t' then "\\t" else if c == '\0' then "\\0"
                       else [c])
    {
      LookupEnv(c);
    }
    TranslateIsSpelled(value, ENV_ESCAPES, c => if c in ['\\', '"', '\''] then ['\\', c]
                                      else if c == '\r' then "\\r" else if c == '\t' then "\\t" else if c == '\0' then "\\0"
                                      else [c]);
  }

  // ── what a reader makes of a dollar sign ───────────────────────────────────

  /** How many backslashes stand directly before a place. */
  function Backslashes(text: string, i: nat): nat
    requires i <= |text|
  {
    if i == 0 || text[i - 1] != '\\' then 0 else 1 + Backslashes(text, i - 1)
  }

  /** Every dollar sign in the text is escaped, or none is. */
  ghost predicate Dollars(text: string, escaped: bool) {
    forall i :: 0 <= i < |text| && text[i] == '$' ==> DollarAt(text, i, escaped)
  }

  ghost predicate DollarAt(text: string, i: nat, escaped: bool)
    requires i <= |text|
  {
    Backslashes(text, i) % 2 == if escaped then 1 else 0
  }

  /** Nor does a double quote end the text before its last place. */
  ghost predicate QuotesInside(text: string) {
    forall i :: 0 < i < |text| - 1 && text[i] == '"' ==> Backslashes(text, i) % 2 == 1
  }

  lemma {:induction false} SameBackslashes(text: string, more: string, i: nat)
    requires i <= |text| <= |more| && more[..|text|] == text
    ensures Backslashes(more, i) == Backslashes(text, i)
  {
    if i > 0 {
      assert more[i - 1] == more[..|text|][i - 1];
      SameBackslashes(text, more, i - 1);
    }
  }

  lemma {:induction false} SpelledSnoc(value: string, c: char, image: char -> string)
    ensures Spelled(value + [c], image) == Spelled(value, image) + image(c)
  {
    if value == "" {
      assert [c][1..] == "" && "" + [c] == [c];
    } else {
      assert (value + [c])[1..] == value[1..] + [c];
      SpelledSnoc(value[1..], c, image);
    }
  }

  /** A quote, and then images that are one character or a backslash and one. */
  ghost predicate Balanced(text: string, escaped: bool) {
    && text != "" && text[0] == '"'
    && Backslashes(text, |text|) % 2 == 0 && Dollars(text, escaped)
    && forall i :: 0 < i < |text| && text[i] == '"' ==> Backslashes(text, i) % 2 == 1
  }

  lemma {:induction false} BalancedMore(text: string, image: string, c: char, escaped: bool)
    requires Balanced(text, escaped)
    requires image == ['\\', c] || (image == [c] && c != '\\' && c != '"')
    requires c == '$' ==> (image == ['\\', c] <==> escaped)
    ensures Balanced(text + image, escaped)
  {
    var more := text + image;
    assert more[..|text|] == text;
    forall i | 0 <= i <= |text| ensures Backslashes(more, i) == Backslashes(text, i) {
      SameBackslashes(text, more, i);
    }
    assert more[0] == text[0];
    if image == ['\\', c] {
      assert more[|text|] == '\\' && more[|text| + 1] == c;
      assert Backslashes(more, |text| + 1) == 1 + Backslashes(text, |text|);
      assert Backslashes(more, |more|) == if c == '\\' then 1 + Backslashes(more, |text| + 1) else 0;
    } else {
      assert more[|text|] == c;
      assert Backslashes(more, |more|) == 0;
    }
  }

  lemma {:induction false} SpelledIsBalanced(value: string, image: char -> string, escaped: bool)
    requires forall c :: image(c) == if c in ['\\', '"'] || (c == '$' && escaped) then ['\\', c] else [c]
    ensures Balanced("\"" + Spelled(value, image), escaped)
    decreases |value|
  {
    if value == "" {
      assert "\"" + "" == "\"";
      assert Backslashes("\"", 1) == 0;
    } else {
      var front, c := value[..|value| - 1], value[|value| - 1];
      SpelledIsBalanced(front, image, escaped);
      assert value == front + [c];
      SpelledSnoc(front, c, image);
      BalancedMore("\"" + Spelled(front, image), image(c), c, escaped);
      assert "\"" + Spelled(value, image) == ("\"" + Spelled(front, image)) + image(c);
    }
  }

  /** So a reader of the exact dotenv text finds every dollar sign of a literal, multiline or JSON
      value escaped, every one of any other bare, and the end of the value at its last quote. */
  lemma {:induction false} DollarsOfExactText(row: Row, value: string, isJson: string -> bool)
    requires !row.legacy
    ensures var text := Encode(row, value, Dotenv, isJson);
            && Dollars(text, Protected(row, value, isJson))
            && QuotesInside(text) && |text| >= 2 && text[0] == '"' && text[|text| - 1] == '"'
            && Backslashes(text, |text| - 1) % 2 == 0
  {
    ExactDotenvText(row, value, isJson);
    if Protected(row, value, isJson) {
      DollarsSpelled(value, c => if c in ['\\', '"', '$'] then ['\\', c] else [c], true);
    } else {
      DollarsSpelled(value, c => if c in ['\\', '"'] then ['\\', c] else [c], false);
    }
  }

  lemma {:induction false} DollarsSpelled(value: string, image: char -> string, escaped: bool)
    requires forall c :: image(c) == if c in ['\\', '"'] || (c == '$' && escaped) then ['\\', c] else [c]
    ensures var text := "\"" + Spelled(value, image) + "\"";
            && Dollars(text, escaped) && QuotesInside(text) && |text| >= 2 && text[0] == '"' && text[|text| - 1] == '"'
            && Backslashes(text, |text| - 1) % 2 == 0
  {
    SpelledIsBalanced(value, image, escaped);
    Closed("\"" + Spelled(value, image), escaped);
  }

  lemma {:induction false} Closed(text: string, escaped: bool)
    requires Balanced(text, escaped)
    ensures var all := text + "\""; Dollars(all, escaped) && QuotesInside(all) && Backslashes(all, |text|) % 2 == 0
  {
    var all := text + "\"";
    assert all[..|text|] == text;
    forall i | 0 <= i <= |text| ensures Backslashes(all, i) == Backslashes(text, i) {
      SameBackslashes(text, all, i);
    }
  }
}
