/** Single-character replacement, done one pair at a time and done by a table. */
module Text {

  /** `s.replace(c, t)` for a one-character `c`. */
  function Replace(s: string, c: char, t: string): string {
    if s == "" then "" else (if s[0] == c then t else [s[0]]) + Replace(s[1..], c, t)
  }

  /** Applies the pairs one after the other, each to the whole text. */
  function ReplaceEach(s: string, pairs: seq<(char, string)>): string
    decreases pairs
  {
    if pairs == [] then s else ReplaceEach(Replace(s, pairs[0].0, pairs[0].1), pairs[1..])
  }

  /** What one character becomes under the first pair that names it. */
  function Lookup(c: char, pairs: seq<(char, string)>): string {
    if pairs == [] then [c] else if pairs[0].0 == c then pairs[0].1 else Lookup(c, pairs[1..])
  }

  /** One pass over the text, each character through the table. */
  function Translate(s: string, pairs: seq<(char, string)>): string {
    if s == "" then "" else Lookup(s[0], pairs) + Translate(s[1..], pairs)
  }

  /** No replacement text contains a character that a later pair searches for. */
  ghost predicate Independent(pairs: seq<(char, string)>) {
    forall i, j, k :: 0 <= i < j < |pairs| && 0 <= k < |pairs[i].1| ==> pairs[i].1[k] != pairs[j].0
  }

  lemma {:induction false} ReplaceConcat(a: string, b: string, c: char, t: string)
    ensures Replace(a + b, c, t) == Replace(a, c, t) + Replace(b, c, t)
  {
    if a == "" {
      assert a + b == b;
    } else {
      assert (a + b)[0] == a[0] && (a + b)[1..] == a[1..] + b;
      ReplaceConcat(a[1..], b, c, t);
    }
  }

  lemma {:induction false} ReplaceEachConcat(a: string, b: string, pairs: seq<(char, string)>)
    ensures ReplaceEach(a + b, pairs) == ReplaceEach(a, pairs) + ReplaceEach(b, pairs)
    decreases pairs
  {
    if pairs != [] {
      ReplaceConcat(a, b, pairs[0].0, pairs[0].1);
      ReplaceEachConcat(Replace(a, pairs[0].0, pairs[0].1), Replace(b, pairs[0].0, pairs[0].1), pairs[1..]);
    }
  }

  lemma {:induction false} TranslateConcat(a: string, b: string, pairs: seq<(char, string)>)
    ensures Translate(a + b, pairs) == Translate(a, pairs) + Translate(b, pairs)
  {
    if a == "" {
      assert a + b == b;
    } else {
      assert (a + b)[0] == a[0] && (a + b)[1..] == a[1..] + b;
      TranslateConcat(a[1..], b, pairs);
    }
  }

  lemma {:induction false} ReplaceAbsent(s: string, c: char, t: string)
    requires c !in s
    ensures Replace(s, c, t) == s
  {
    if s != "" {
      ReplaceAbsent(s[1..], c, t);
      assert s == [s[0]] + s[1..];
    }
  }

  lemma {:induction false} ReplaceEachAbsent(s: string, pairs: seq<(char, string)>)
    requires forall i :: 0 <= i < |pairs| ==> pairs[i].0 !in s
    ensures ReplaceEach(s, pairs) == s
    decreases pairs
  {
    if pairs != [] {
      ReplaceAbsent(s, pairs[0].0, pairs[0].1);
      ReplaceEachAbsent(s, pairs[1..]);
    }
  }

  lemma {:induction false} ReplaceEachChar(c: char, pairs: seq<(char, string)>)
    requires Independent(pairs)
    ensures ReplaceEach([c], pairs) == Lookup(c, pairs)
    decreases pairs
  {
    if pairs != [] {
      assert Replace([c], pairs[0].0, pairs[0].1) == if pairs[0].0 == c then pairs[0].1 else [c];
      if pairs[0].0 == c {
        ReplaceEachAbsent(pairs[0].1, pairs[1..]);
      } else {
        ReplaceEachChar(c, pairs[1..]);
      }
    }
  }

  lemma {:induction false} LookupStep(c: char, pair: (char, string), pairs: seq<(char, string)>)
    ensures Lookup(c, [pair] + pairs) == if pair.0 == c then pair.1 else Lookup(c, pairs)
  {
    assert ([pair] + pairs)[1..] == pairs;
  }

  /** Sequential replacement and the per-character table agree on independent pairs. */
  lemma {:induction false} SequentialIsTable(s: string, pairs: seq<(char, string)>)
    requires Independent(pairs)
    ensures ReplaceEach(s, pairs) == Translate(s, pairs)
    decreases s
  {
    if s == "" {
      ReplaceEachAbsent("", pairs);
    } else {
      assert s == [s[0]] + s[1..];
      ReplaceEachConcat([s[0]], s[1..], pairs);
      ReplaceEachChar(s[0], pairs);
      SequentialIsTable(s[1..], pairs);
    }
  }

  // ── lines ──────────────────────────────────────────────────────────────────

  /** Where the first line ends. */
  function LineEnd(t: string): (n: nat)
    ensures n <= |t|
  {
    if t == "" || t[0] == '\n' then 0 else 1 + LineEnd(t[1..])
  }

  function Drop(t: string, n: nat): string {
    if n <= |t| then t[n..] else ""
  }

  lemma {:induction false} LineEndIsFirst(t: string)
    ensures LineEnd(t) < |t| ==> t[LineEnd(t)] == '\n'
    ensures '\n' !in t[..LineEnd(t)]
  {
    if t != "" && t[0] != '\n' {
      LineEndIsFirst(t[1..]);
      assert t[..LineEnd(t)] == [t[0]] + t[1..][..LineEnd(t[1..])];
    }
  }

  method FindNewline(text: string, from: nat) returns (eol: nat)
    requires from <= |text|
    ensures eol == from + LineEnd(text[from..])
  {
    eol := from;
    while eol < |text| && text[eol] != '\n'
      invariant from <= eol <= |text|
      invariant from + LineEnd(text[from..]) == eol + LineEnd(text[eol..])
    {
      assert text[eol..][1..] == text[eol + 1..];
      eol := eol + 1;
    }
  }
}
