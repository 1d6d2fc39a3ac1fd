/** The encodings Coolify gives an environment value, and their only inverse. */
module EnvEncoding {
  import opened Wrappers
  import opened Text

  /** How a configuration file delimits its records. */
  datatype FileKind = Dotenv | Compose

  /** The flags of an environment row that choose its encoding. `legacy` is true of a
      row saved before exact escaping (no version stamp, or one before 4.5.0). */
  datatype Row = Row(legacy: bool, isLiteral: bool, isMultiline: bool)

  const ENV_ESCAPES: seq<(char, string)> :=
    [('\\', "\\\\"), ('\r', "\\r"), ('\t', "\\t"), ('\0', "\\0"), ('"', "\\\""), ('\'', "\\'")]
  const COMPOSE_ESCAPES: seq<(char, string)> := [('\\', "\\\\"), ('"', "\\\"")]
  const COMPOSE_ESCAPES_LITERAL: seq<(char, string)> := [('\\', "\\\\"), ('"', "\\\""), ('$', "\\$")]
  const PHP_WHITESPACE: string := " \t\n\r\0\U{000B}"

  // ── the JSON judgement, of which only two facts are used ───────────────────

  /** In a JSON text a backslash occurs only inside a string (section 7 of RFC 8259), so
      a quotation mark that no backslash precedes comes before the first one. */
  ghost predicate BackslashOnlyInStrings(isJson: string -> bool) {
    forall s, i :: isJson(s) && 0 <= i < |s| && s[i] == '\\' ==>
      exists j :: 0 <= j < i && s[j] == '"' && forall k :: 0 <= k < j ==> s[k] != '\\'
  }

  /** A `$` occurs only inside a string too, where it is an ordinary character:
      writing it twice leaves the text JSON. */
  ghost predicate DollarOnlyInStrings(isJson: string -> bool) {
    forall s :: isJson(s) ==> isJson(Replace(s, '$', "$$"))
  }

  ghost predicate JsonFacts(isJson: string -> bool) {
    BackslashOnlyInStrings(isJson) && DollarOnlyInStrings(isJson)
  }

  // ── encoding ───────────────────────────────────────────────────────────────

  predicate OpensJson(s: string) {
    s != "" && (s[0] == '{' || s[0] == '[')
  }

  function EscapeEnvVariables(value: string): string {
    Translate(value, ENV_ESCAPES)
  }

  function EscapeComposeEnvFileValue(value: string, allowInterpolation: bool): string {
    "\"" + ReplaceEach(value, if allowInterpolation then COMPOSE_ESCAPES else COMPOSE_ESCAPES_LITERAL) + "\""
  }

  function EscapeDollarSign(value: string): string {
    Replace(value, '$', "$$")
  }

  function LegacyFormat(row: Row, value: string, isJson: string -> bool): string {
    if OpensJson(value) && isJson(value) then value
    else if row.isLiteral || row.isMultiline then "'" + value + "'"
    else EscapeEnvVariables(value)
  }

  function StripLeft(s: string): string {
    if s != "" && s[0] in PHP_WHITESPACE then StripLeft(s[1..]) else s
  }

  predicate AllowsInterpolation(row: Row, value: string, isJson: string -> bool) {
    !(OpensJson(StripLeft(value)) && isJson(value)) && !row.isLiteral && !row.isMultiline
  }

  function Encode(row: Row, value: string, kind: FileKind, isJson: string -> bool): string {
    if row.legacy then LegacyFormat(row, value, isJson)
    else
      var allow := AllowsInterpolation(row, value, isJson);
      if kind.Dotenv? then EscapeComposeEnvFileValue(value, allow)
      else if allow then value else EscapeDollarSign(value)
  }

  // ── decoding ───────────────────────────────────────────────────────────────

  /** The inside of an exactly escaped dotenv value, unescaped; None when a quote is bare
      or a backslash escapes anything but a backslash, a quote or a `$`. */
  function UnescapeInner(inner: string): Option<string> {
    if inner == "" then Some("")
    else if inner[0] == '\\' then
      if |inner| < 2 || inner[1] !in "\\\"$" then None else Prepend(inner[1], UnescapeInner(inner[2..]))
    else if inner[0] == '"' then None
    else Prepend(inner[0], UnescapeInner(inner[1..]))
  }

  function Prepend(c: char, rest: Option<string>): Option<string> {
    if rest.None? then None else Some([c] + rest.value)
  }

  function UnescapeEnvChar(c: char): Option<char> {
    if c in "\\\"'" then Some(c)
    else if c == 'r' then Some('\r')
    else if c == 't' then Some('\t')
    else if c == '0' then Some('\0')
    else None
  }

  function UnescapeEnv(raw: string): Option<string> {
    if raw == "" then Some("")
    else if raw[0] == '\\' then
      if |raw| < 2 || UnescapeEnvChar(raw[1]).None? then None
      else Prepend(UnescapeEnvChar(raw[1]).value, UnescapeEnv(raw[2..]))
    else Prepend(raw[0], UnescapeEnv(raw[1..]))
  }

  /** The loop that undoes the exact dotenv form. */
  method UnescapeComposeEnvFileValue(raw: string) returns (value: Option<string>)
    ensures value == if Quoted(raw, '"') then UnescapeInner(raw[1..|raw| - 1]) else None
  {
    if |raw| < 2 || raw[0] != '"' || raw[|raw| - 1] != '"' {
      return None;
    }
    var inner := raw[1..|raw| - 1];
    var out, i := "", 0;
    assert inner[i..] == inner;
    PrependAllEmpty(UnescapeInner(inner));
    while i < |inner|
      invariant 0 <= i <= |inner|
      invariant UnescapeInner(inner) == PrependAll(out, UnescapeInner(inner[i..]))
    {
      ghost var tail := inner[i..];
      assert tail[0] == inner[i] && tail[1..] == inner[i + 1..];
      if inner[i] == '\\' {
        if i + 1 >= |inner| || inner[i + 1] !in "\\\"$" {
          return None;
        }
        assert tail[2..] == inner[i + 2..];
        PrependAllSnoc(out, inner[i + 1], UnescapeInner(inner[i + 2..]));
        out := out + [inner[i + 1]];
        i := i + 2;
      } else if inner[i] == '"' {
        return None;
      } else {
        PrependAllSnoc(out, inner[i], UnescapeInner(inner[i + 1..]));
        out := out + [inner[i]];
        i := i + 1;
      }
    }
    assert inner[i..] == "" && out + "" == out;
    value := Some(out);
  }

  /** The loop that undoes the legacy escaping. */
  method UnescapeEnvVariables(raw: string) returns (value: Option<string>)
    ensures value == UnescapeEnv(raw)
  {
    var out, i := "", 0;
    assert raw[i..] == raw;
    PrependAllEmpty(UnescapeEnv(raw));
    while i < |raw|
      invariant 0 <= i <= |raw|
      invariant UnescapeEnv(raw) == PrependAll(out, UnescapeEnv(raw[i..]))
    {
      ghost var tail := raw[i..];
      assert tail[0] == raw[i] && tail[1..] == raw[i + 1..];
      if raw[i] == '\\' {
        if i + 1 >= |raw| || UnescapeEnvChar(raw[i + 1]).None? {
          return None;
        }
        assert tail[2..] == raw[i + 2..];
        PrependAllSnoc(out, UnescapeEnvChar(raw[i + 1]).value, UnescapeEnv(raw[i + 2..]));
        out := out + [UnescapeEnvChar(raw[i + 1]).value];
        i := i + 2;
      } else {
        PrependAllSnoc(out, raw[i], UnescapeEnv(raw[i + 1..]));
        out := out + [raw[i]];
        i := i + 1;
      }
    }
    assert raw[i..] == "" && out + "" == out;
    value := Some(out);
  }

  function PrependAll(prefix: string, rest: Option<string>): Option<string> {
    if rest.None? then None else Some(prefix + rest.value)
  }

  lemma {:induction false} PrependAllEmpty(rest: Option<string>)
    ensures PrependAll("", rest) == rest
  {
    if rest.Some? {
      assert "" + rest.value == rest.value;
    }
  }

  lemma {:induction false} PrependAllSnoc(prefix: string, c: char, rest: Option<string>)
    ensures PrependAll(prefix, Prepend(c, rest)) == PrependAll(prefix + [c], rest)
  {
    if rest.Some? {
      assert prefix + ([c] + rest.value) == prefix + [c] + rest.value;
    }
  }

  /** `s.replace("$$", "$")`, left to right. */
  function SingleDollars(s: string): string {
    if |s| >= 2 && s[0] == '$' && s[1] == '$' then "$" + SingleDollars(s[2..])
    else if s == "" then ""
    else [s[0]] + SingleDollars(s[1..])
  }

  predicate Quoted(raw: string, quote: char) {
    |raw| >= 2 && raw[0] == quote && raw[|raw| - 1] == quote
  }

  /** Every plausible reading of a raw text. */
  function Candidates(raw: string, row: Row, kind: FileKind, isJson: string -> bool): set<string> {
    if !row.legacy then
      if kind.Dotenv? then
        if Quoted(raw, '"') then OptionalSet(UnescapeInner(raw[1..|raw| - 1])) else {}
      else {raw, SingleDollars(raw)}
    else
      (if OpensJson(raw) && isJson(raw) then {raw} else {})
      + (if Quoted(raw, '\'') then {raw[1..|raw| - 1]} else {})
      + OptionalSet(UnescapeEnv(raw))
  }

  function OptionalSet(v: Option<string>): set<string> {
    if v.None? then {} else {v.value}
  }

  /** The candidates that re-encode to the raw text, byte for byte. */
  function Survivors(raw: string, row: Row, kind: FileKind, isJson: string -> bool): set<string> {
    set v | v in Candidates(raw, row, kind, isJson) && v != "" && Encode(row, v, kind, isJson) == raw
  }

  ghost function Decode(raw: string, row: Row, kind: FileKind, isJson: string -> bool): Option<string> {
    var exact := Survivors(raw, row, kind, isJson);
    if |exact| == 1 then
      var v :| v in exact;
      Some(v)
    else None
  }

  // ── the escapers, inverted ─────────────────────────────────────────────────

  /** Upstream replaces the six characters one after the other; the table is the same. */
  lemma {:induction false} EscapeIsSequential(value: string)
    ensures EscapeEnvVariables(value) == ReplaceEach(value, ENV_ESCAPES)
  {
    SequentialIsTable(value, ENV_ESCAPES);
  }

  lemma {:induction false} UnescapeEscape(value: string)
    ensures UnescapeEnv(EscapeEnvVariables(value)) == Some(value)
  {
    if value != "" {
      var head, tail := Lookup(value[0], ENV_ESCAPES), EscapeEnvVariables(value[1..]);
      var raw := head + tail;
      assert EscapeEnvVariables(value) == raw;
      UnescapeEscape(value[1..]);
      assert value == [value[0]] + value[1..];
      LookupEnv(value[0]);
      if |head| == 2 {
        assert raw[0] == '\\' && raw[1] == head[1] && raw[2..] == tail;
      } else {
        assert head == [value[0]] && raw[1..] == tail;
      }
    }
  }

  lemma {:induction false} UnescapeInnerTranslate(value: string, pairs: seq<(char, string)>)
    requires pairs == COMPOSE_ESCAPES || pairs == COMPOSE_ESCAPES_LITERAL
    ensures UnescapeInner(Translate(value, pairs)) == Some(value)
  {
    if value != "" {
      var head, tail := Lookup(value[0], pairs), Translate(value[1..], pairs);
      var raw := head + tail;
      assert Translate(value, pairs) == raw;
      UnescapeInnerTranslate(value[1..], pairs);
      assert value == [value[0]] + value[1..];
      LookupCompose(value[0], pairs);
      if |head| == 2 {
        assert raw[0] == '\\' && raw[1] == value[0] && raw[2..] == tail;
      } else {
        assert raw[1..] == tail;
      }
    }
  }

  lemma {:induction false} LookupCompose(c: char, pairs: seq<(char, string)>)
    requires pairs == COMPOSE_ESCAPES || pairs == COMPOSE_ESCAPES_LITERAL
    ensures (Lookup(c, pairs) == [c] && c != '\\' && c != '"') || (Lookup(c, pairs) == ['\\', c] && c in "\\\"$")
  {
    LookupStep(c, pairs[0], pairs[1..]);
    assert pairs[1..] == [pairs[1]] + pairs[2..];
    LookupStep(c, pairs[1], pairs[2..]);
    if pairs == COMPOSE_ESCAPES_LITERAL {
      assert pairs[2..] == [pairs[2]] + [];
      LookupStep(c, pairs[2], []);
    }
  }

  lemma {:induction false} LookupEnv(c: char)
    ensures Lookup(c, ENV_ESCAPES) == match c
              case '\\' => "\\\\" case '\r' => "\\r" case '\t' => "\\t"
              case '\0' => "\\0" case '"' => "\\\"" case '\'' => "\\'"
              case _ => [c]
  {
    var e := ENV_ESCAPES;
    assert e == [e[0]] + e[1..] && e[1..] == [e[1]] + e[2..] && e[2..] == [e[2]] + e[3..];
    assert e[3..] == [e[3]] + e[4..] && e[4..] == [e[4]] + e[5..] && e[5..] == [e[5]] + [];
    LookupStep(c, e[0], e[1..]);
    LookupStep(c, e[1], e[2..]);
    LookupStep(c, e[2], e[3..]);
    LookupStep(c, e[3], e[4..]);
    LookupStep(c, e[4], e[5..]);
    LookupStep(c, e[5], []);
  }

  /** The quotes of the exact form enclose a text that unescapes to the value. */
  lemma {:induction false} ExactInner(value: string, allow: bool) returns (inner: string)
    ensures EscapeComposeEnvFileValue(value, allow) == "\"" + inner + "\""
    ensures UnescapeInner(inner) == Some(value)
  {
    var pairs := if allow then COMPOSE_ESCAPES else COMPOSE_ESCAPES_LITERAL;
    inner := ReplaceEach(value, pairs);
    SequentialIsTable(value, pairs);
    UnescapeInnerTranslate(value, pairs);
  }

  lemma {:induction false} SingleDoubled(value: string)
    ensures SingleDollars(EscapeDollarSign(value)) == value
  {
    if value != "" {
      SingleDoubled(value[1..]);
      var tail := EscapeDollarSign(value[1..]);
      assert value == [value[0]] + value[1..];
      if value[0] == '$' {
        assert EscapeDollarSign(value) == "$$" + tail && ("$$" + tail)[2..] == tail;
      } else {
        assert EscapeDollarSign(value) == [value[0]] + tail && ([value[0]] + tail)[1..] == tail;
      }
    }
  }

  lemma {:induction false} StripLeftDoubled(value: string)
    ensures OpensJson(StripLeft(value)) == OpensJson(StripLeft(EscapeDollarSign(value)))
  {
    if value != "" {
      var tail := EscapeDollarSign(value[1..]);
      if value[0] == '$' {
        assert EscapeDollarSign(value) == "$$" + tail;
        assert '$' !in PHP_WHITESPACE;
      } else {
        assert EscapeDollarSign(value) == [value[0]] + tail && ([value[0]] + tail)[1..] == tail;
        StripLeftDoubled(value[1..]);
      }
    }
  }

  /** Every quotation mark of an escaped text follows a backslash. */
  lemma {:induction false} EscapedQuote(value: string, j: nat)
    requires j < |EscapeEnvVariables(value)| && EscapeEnvVariables(value)[j] in "\"'"
    ensures j > 0 && EscapeEnvVariables(value)[j - 1] == '\\'
  {
    var head, tail := Lookup(value[0], ENV_ESCAPES), EscapeEnvVariables(value[1..]);
    assert EscapeEnvVariables(value) == head + tail;
    LookupEnv(value[0]);
    if j >= |head| {
      EscapedQuote(value[1..], j - |head|);
    }
  }

  lemma {:induction false} EscapedWithoutBackslash(value: string)
    requires '\\' !in EscapeEnvVariables(value)
    ensures EscapeEnvVariables(value) == value
  {
    if value != "" {
      var head, tail := Lookup(value[0], ENV_ESCAPES), EscapeEnvVariables(value[1..]);
      assert EscapeEnvVariables(value) == head + tail;
      forall i | 0 <= i < |tail| ensures tail[i] != '\\' {
        assert (head + tail)[|head| + i] == tail[i];
      }
      EscapedWithoutBackslash(value[1..]);
      LookupEnv(value[0]);
      assert head[0] == (head + tail)[0];
      assert value == [value[0]] + value[1..];
    }
  }

  /** A JSON text that is also an escaped value escapes nothing. */
  lemma {:induction false} JsonEscapesNothing(value: string, isJson: string -> bool)
    requires JsonFacts(isJson) && isJson(EscapeEnvVariables(value))
    ensures EscapeEnvVariables(value) == value
  {
    var raw := EscapeEnvVariables(value);
    if '\\' in raw {
      var i :| 0 <= i < |raw| && raw[i] == '\\';
      var j :| 0 <= j < i && raw[j] == '"' && forall k :: 0 <= k < j ==> raw[k] != '\\';
      EscapedQuote(value, j);
      assert false;
    }
    EscapedWithoutBackslash(value);
  }

  // ── the main results ───────────────────────────────────────────────────────

  /** No two values of one row share an encoding. */
  lemma {:induction false} EncodeInjective(row: Row, a: string, b: string, kind: FileKind, isJson: string -> bool)
    requires JsonFacts(isJson)
    requires Encode(row, a, kind, isJson) == Encode(row, b, kind, isJson)
    ensures a == b
  {
    if row.legacy {
      LegacyInjective(row, a, b, isJson);
    } else if kind.Dotenv? {
      var ia := ExactInner(a, AllowsInterpolation(row, a, isJson));
      var ib := ExactInner(b, AllowsInterpolation(row, b, isJson));
      var raw := Encode(row, a, kind, isJson);
      assert ia == raw[1..|raw| - 1] && ib == raw[1..|raw| - 1];
    } else {
      ComposeInjective(row, a, b, isJson);
    }
  }

  lemma {:induction false} ComposeInjective(row: Row, a: string, b: string, isJson: string -> bool)
    requires JsonFacts(isJson) && !row.legacy
    requires Encode(row, a, Compose, isJson) == Encode(row, b, Compose, isJson)
    ensures a == b
  {
    SingleDoubled(a);
    SingleDoubled(b);
    StripLeftDoubled(a);
    StripLeftDoubled(b);
  }

  lemma {:induction false} LegacyInjective(row: Row, a: string, b: string, isJson: string -> bool)
    requires JsonFacts(isJson)
    requires LegacyFormat(row, a, isJson) == LegacyFormat(row, b, isJson)
    ensures a == b
  {
    var aj, bj := OpensJson(a) && isJson(a), OpensJson(b) && isJson(b);
    if row.isLiteral || row.isMultiline {
      var raw := LegacyFormat(row, a, isJson);
      assert !aj ==> raw[0] == '\'' && a == raw[1..|raw| - 1];
      assert !bj ==> raw[0] == '\'' && b == raw[1..|raw| - 1];
    } else {
      UnescapeEscape(a);
      UnescapeEscape(b);
      if aj && !bj {
        JsonEscapesNothing(b, isJson);
      } else if bj && !aj {
        JsonEscapesNothing(a, isJson);
      }
    }
  }

  lemma {:induction false} OwnCandidate(row: Row, value: string, kind: FileKind, isJson: string -> bool)
    ensures value in Candidates(Encode(row, value, kind, isJson), row, kind, isJson)
  {
    var raw := Encode(row, value, kind, isJson);
    if row.legacy {
      if OpensJson(value) && isJson(value) {
      } else if row.isLiteral || row.isMultiline {
        assert raw[1..|raw| - 1] == value;
      } else {
        UnescapeEscape(value);
      }
    } else if kind.Dotenv? {
      var inner := ExactInner(value, AllowsInterpolation(row, value, isJson));
      assert raw[1..|raw| - 1] == inner;
    } else {
      SingleDoubled(value);
    }
  }

  /** Decoding is exactly the inverse of encoding: it returns a value if and only if that
      value is not empty and encodes to the text, so never a different one. */
  lemma {:induction false} DecodeIsInverse(raw: string, row: Row, kind: FileKind, isJson: string -> bool, value: string)
    requires JsonFacts(isJson)
    ensures Decode(raw, row, kind, isJson) == Some(value) <==>
            value != "" && Encode(row, value, kind, isJson) == raw
  {
    var exact := Survivors(raw, row, kind, isJson);
    if value != "" && Encode(row, value, kind, isJson) == raw {
      OwnCandidate(row, value, kind, isJson);
      forall other | other in exact ensures other == value {
        EncodeInjective(row, other, value, kind, isJson);
      }
      assert exact == {value};
    }
  }
}
