/**
 * The string escaping the endpoint applies to every error message before it
 * puts the message in a response (escapeJsonString in
 * classes/class-endpoint.php).
 *
 * The source builds it from two calls of PHP's str_replace with arrays of
 * search strings: a pass that escapes eight characters, then a pass that turns
 * four escaped JSON fragments back into their plain form. ReplaceAll is
 * str_replace for one search string, ReplaceEach the array form.
 */
module JsonEscape {
  import opened Options

  const Backspace: char := '\U{8}'
  const FormFeed: char := '\U{C}'

  /** The characters the first pass escapes, in the order the source lists them. */
  const CharEscapers: seq<string> := ["\\", "/", "\"", "\n", "\r", "\t", [Backspace], [FormFeed]]
  /** Their replacements: backspace becomes \f and form feed becomes \b, as written. */
  const CharReplacements: seq<string> := ["\\\\", "\\/", "\\\"", "\\n", "\\r", "\\t", "\\f", "\\b"]

  /** The escaped fragments the second pass collapses: \":\"  \",\"  {\"  \"} */
  const Fragments: seq<string> := [@"\"":\""", @"\"",\""", @"{\""", @"\""}"]
  /** What they collapse to: ":"  ","  {"  "} */
  const Collapsed: seq<string> := [@""":""", @""",""", @"{""", @"""}"]

  /**
   * PHP str_replace with a single search string: scans left to right,
   * replaces non-overlapping occurrences and never rescans inserted text.
   * An empty search string leaves the subject unchanged.
   */
  function ReplaceAll(s: string, from: string, to: string): string
    decreases |s|
  {
    if |from| == 0 || |s| < |from| then s
    else if s[..|from|] == from then to + ReplaceAll(s[|from|..], from, to)
    else [s[0]] + ReplaceAll(s[1..], from, to)
  }

  /**
   * PHP str_replace with arrays: each (search, replacement) pair in array
   * order, each working on the result of the previous one; a search string
   * without a replacement is replaced by the empty string.
   */
  function ReplaceEach(s: string, froms: seq<string>, tos: seq<string>): string
    decreases |froms|, s  // naming s keeps the verifier from unrolling a fixed table eagerly
  {
    if |froms| == 0 then s
    else
      var to := if |tos| == 0 then "" else tos[0];
      ReplaceEach(ReplaceAll(s, froms[0], to), froms[1..], if |tos| == 0 then [] else tos[1..])
  }

  /** The first str_replace of escapeJsonString. */
  function EscapePass(s: string): string {
    ReplaceEach(s, CharEscapers, CharReplacements)
  }

  /** The second str_replace of escapeJsonString. */
  function CollapsePass(s: string): string {
    ReplaceEach(s, Fragments, Collapsed)
  }

  function EscapeJsonString(value: string): string {
    CollapsePass(EscapePass(value))
  }

  /** Reference definition of the first pass: what each single character becomes. */
  function EscapeChar(c: char): string {
    if c == '\\' then "\\\\"
    else if c == '/' then "\\/"
    else if c == '"' then "\\\""
    else if c == '\n' then "\\n"
    else if c == '\r' then "\\r"
    else if c == '\t' then "\\t"
    else if c == Backspace then "\\f"
    else if c == FormFeed then "\\b"
    else [c]
  }

  function EscapeChars(s: string): string
    decreases |s|
  {
    if s == [] then [] else EscapeChar(s[0]) + EscapeChars(s[1..])
  }

  /** The characters the first pass rewrites. */
  predicate Escaped(c: char) {
    c == '\\' || c == '/' || c == '"' || c == '\n' || c == '\r' || c == '\t' || c == Backspace || c == FormFeed
  }

  /** The raw control characters the first pass escapes. */
  predicate EscapedControl(c: char) {
    c == '\n' || c == '\r' || c == '\t' || c == Backspace || c == FormFeed
  }

  // ---------------------------------------------------------------------------
  // Facts about ReplaceAll and ReplaceEach

  /** Nothing is replaced when a character of the search string never occurs. */
  lemma {:induction false} ReplaceAllAbsent(s: string, from: string, to: string, j: nat)
    requires j < |from| && from[j] !in s
    ensures ReplaceAll(s, from, to) == s
    decreases |s|
  {
    if |s| >= |from| {
      assert s[..|from|] != from by { assert s[..|from|][j] == s[j]; }
      ReplaceAllAbsent(s[1..], from, to, j);
      assert s == [s[0]] + s[1..];
    }
  }

  /** A character absent from the subject and the replacement stays absent. */
  lemma {:induction false} ReplaceAllKeepsOut(s: string, from: string, to: string, c: char)
    requires c !in s && c !in to
    ensures c !in ReplaceAll(s, from, to)
    decreases |s|
  {
    if |from| == 0 || |s| < |from| {
    } else if s[..|from|] == from {
      ReplaceAllKeepsOut(s[|from|..], from, to, c);
    } else {
      ReplaceAllKeepsOut(s[1..], from, to, c);
    }
  }

  /** A single-character search distributes over concatenation. */
  lemma {:induction false} ReplaceCharConcat(a: string, b: string, c: char, to: string)
    ensures ReplaceAll(a + b, [c], to) == ReplaceAll(a, [c], to) + ReplaceAll(b, [c], to)
    decreases |a|
  {
    if a == [] {
      assert a + b == b;
    } else {
      assert (a + b)[1..] == a[1..] + b;
      assert (a + b)[..1] == a[..1];
      ReplaceCharConcat(a[1..], b, c, to);
    }
  }

  predicate SingleChars(froms: seq<string>) {
    forall i :: 0 <= i < |froms| ==> |froms[i]| == 1
  }

  lemma {:induction false} ReplaceEachConcat(a: string, b: string, froms: seq<string>, tos: seq<string>)
    requires SingleChars(froms)
    ensures ReplaceEach(a + b, froms, tos) == ReplaceEach(a, froms, tos) + ReplaceEach(b, froms, tos)
    decreases |froms|
  {
    if froms != [] {
      var to := if tos == [] then "" else tos[0];
      assert froms[0] == [froms[0][0]];
      ReplaceCharConcat(a, b, froms[0][0], to);
      assert SingleChars(froms[1..]) by {
        forall i | 0 <= i < |froms[1..]| ensures |froms[1..][i]| == 1 {
          assert froms[1..][i] == froms[i + 1];
        }
      }
      ReplaceEachConcat(ReplaceAll(a, froms[0], to), ReplaceAll(b, froms[0], to), froms[1..],
                        if tos == [] then [] else tos[1..]);
    }
  }

  /** A character absent from the subject and from every replacement stays absent. */
  lemma {:induction false} ReplaceEachKeepsOut(s: string, froms: seq<string>, tos: seq<string>, c: char)
    requires c !in s
    requires forall i :: 0 <= i < |tos| ==> c !in tos[i]
    ensures c !in ReplaceEach(s, froms, tos)
    decreases |froms|
  {
    if froms != [] {
      var to := if tos == [] then "" else tos[0];
      ReplaceAllKeepsOut(s, froms[0], to, c);
      var rest := if tos == [] then [] else tos[1..];
      assert forall i :: 0 <= i < |rest| ==> c !in rest[i] by {
        forall i | 0 <= i < |rest| ensures c !in rest[i] {
          assert rest[i] == tos[i + 1];
        }
      }
      ReplaceEachKeepsOut(ReplaceAll(s, froms[0], to), froms[1..], rest, c);
    }
  }

  /** Some character of `from` does not occur in `s`, so `from` cannot occur in `s`. */
  predicate Absent(s: string, from: string) {
    exists j :: 0 <= j < |from| && from[j] !in s
  }

  /** Nothing is replaced when every search string is absent from the subject. */
  lemma {:induction false} ReplaceEachNone(s: string, froms: seq<string>, tos: seq<string>)
    requires forall i :: 0 <= i < |froms| ==> Absent(s, froms[i])
    ensures ReplaceEach(s, froms, tos) == s
    decreases |froms|
  {
    if froms != [] {
      var to := if tos == [] then "" else tos[0];
      assert Absent(s, froms[0]);
      var j :| 0 <= j < |froms[0]| && froms[0][j] !in s;
      ReplaceAllAbsent(s, froms[0], to, j);
      assert forall i :: 0 <= i < |froms[1..]| ==> Absent(s, froms[1..][i]) by {
        forall i | 0 <= i < |froms[1..]| ensures Absent(s, froms[1..][i]) {
          assert froms[1..][i] == froms[i + 1];
        }
      }
      ReplaceEachNone(s, froms[1..], if tos == [] then [] else tos[1..]);
    }
  }

  /**
   * When the subject is exactly the k-th search string, the earlier search
   * strings are absent from it and the later ones absent from the k-th
   * replacement, the whole array replacement yields that replacement.
   */
  lemma {:induction false} ReplaceEachHits(s: string, froms: seq<string>, tos: seq<string>, k: nat)
    requires |froms| == |tos| && k < |froms| && s == froms[k] && |s| > 0
    requires forall i :: 0 <= i < k ==> Absent(s, froms[i])
    requires forall i :: k < i < |froms| ==> Absent(tos[k], froms[i])
    ensures ReplaceEach(s, froms, tos) == tos[k]
    decreases |froms|
  {
    if k == 0 {
      assert s[..|s|] == s && s[|s|..] == [];
      assert ReplaceAll(s, froms[0], tos[0]) == tos[0] + ReplaceAll([], froms[0], tos[0]);
      assert ReplaceAll(s, froms[0], tos[0]) == tos[0];
      assert forall i :: 0 <= i < |froms[1..]| ==> Absent(tos[0], froms[1..][i]) by {
        forall i | 0 <= i < |froms[1..]| ensures Absent(tos[0], froms[1..][i]) {
          assert froms[1..][i] == froms[i + 1];
        }
      }
      ReplaceEachNone(tos[0], froms[1..], tos[1..]);
    } else {
      assert Absent(s, froms[0]);
      var j :| 0 <= j < |froms[0]| && froms[0][j] !in s;
      ReplaceAllAbsent(s, froms[0], tos[0], j);
      assert forall i :: 0 <= i < k - 1 ==> Absent(s, froms[1..][i]) by {
        forall i | 0 <= i < k - 1 ensures Absent(s, froms[1..][i]) {
          assert froms[1..][i] == froms[i + 1];
        }
      }
      assert forall i :: k - 1 < i < |froms[1..]| ==> Absent(tos[1..][k - 1], froms[1..][i]) by {
        forall i | k - 1 < i < |froms[1..]| ensures Absent(tos[1..][k - 1], froms[1..][i]) {
          assert froms[1..][i] == froms[i + 1];
        }
      }
      ReplaceEachHits(s, froms[1..], tos[1..], k - 1);
    }
  }

  // ---------------------------------------------------------------------------
  // The escaping pass is a per-character map

  /** One character goes through the eight replacements of the first pass. */
  lemma EscapePassChar(x: char)
    ensures EscapePass([x]) == EscapeChar(x)
  {
    var k := if x == '\\' then 0 else if x == '/' then 1 else if x == '"' then 2
             else if x == '\n' then 3 else if x == '\r' then 4 else if x == '\t' then 5
             else if x == Backspace then 6 else if x == FormFeed then 7 else 8;
    if k == 8 {
      forall i | 0 <= i < |CharEscapers| ensures Absent([x], CharEscapers[i]) {
        assert CharEscapers[i][0] !in [x];
      }
      ReplaceEachNone([x], CharEscapers, CharReplacements);
    } else {
      forall i | 0 <= i < k ensures Absent([x], CharEscapers[i]) {
        assert CharEscapers[i][0] !in [x];
      }
      forall i | k < i < |CharEscapers| ensures Absent(CharReplacements[k], CharEscapers[i]) {
        assert CharEscapers[i][0] !in CharReplacements[k];
      }
      ReplaceEachHits([x], CharEscapers, CharReplacements, k);
    }
  }

  /**
   * The first pass maps each character independently: backslash is replaced
   * first, so the backslashes that later replacements insert are not doubled,
   * and no later search character occurs in an earlier replacement.
   */
  lemma {:induction false} EscapePassIsPerChar(s: string)
    ensures EscapePass(s) == EscapeChars(s)
    decreases |s|
  {
    if s == [] {
      forall i | 0 <= i < |CharEscapers| ensures Absent(s, CharEscapers[i]) {
        assert CharEscapers[i][0] !in s;
      }
      ReplaceEachNone(s, CharEscapers, CharReplacements);
    } else {
      assert SingleChars(CharEscapers);
      assert s == [s[0]] + s[1..];
      ReplaceEachConcat([s[0]], s[1..], CharEscapers, CharReplacements);
      EscapePassChar(s[0]);
      EscapePassIsPerChar(s[1..]);
    }
  }

  lemma {:induction false} EscapeCharsConcat(a: string, b: string)
    ensures EscapeChars(a + b) == EscapeChars(a) + EscapeChars(b)
    decreases |a|
  {
    if a == [] {
      assert a + b == b;
    } else {
      assert (a + b)[0] == a[0] && (a + b)[1..] == a[1..] + b;
      EscapeCharsConcat(a[1..], b);
    }
  }

  /** Text without any of the eight characters passes through the first pass unchanged. */
  lemma {:induction false} EscapeCharsClean(s: string)
    requires forall i :: 0 <= i < |s| ==> !Escaped(s[i])
    ensures EscapeChars(s) == s
    decreases |s|
  {
    if s != [] {
      EscapeCharsClean(s[1..]);
      assert s == [s[0]] + s[1..];
    }
  }

  /** The first pass leaves no raw newline, carriage return, tab, backspace or form feed. */
  lemma {:induction false} EscapeCharsNoControl(s: string, c: char)
    requires EscapedControl(c)
    ensures c !in EscapeChars(s)
    decreases |s|
  {
    if s != [] {
      EscapeCharsNoControl(s[1..], c);
    }
  }

  // ---------------------------------------------------------------------------
  // Properties of escapeJsonString

  /**
   * The output never holds a raw newline, carriage return, tab, backspace or
   * form feed: the first pass escapes them, and the second pass only inserts
   * quotes, colons, commas and braces.
   */
  lemma NoRawControl(s: string)
    ensures forall i :: 0 <= i < |EscapeJsonString(s)| ==> !EscapedControl(EscapeJsonString(s)[i])
  {
    EscapePassIsPerChar(s);
    forall c | EscapedControl(c) ensures c !in EscapeJsonString(s) {
      EscapeCharsNoControl(s, c);
      ReplaceEachKeepsOut(EscapePass(s), Fragments, Collapsed, c);
    }
  }

  /** A string with none of the eight escaped characters comes back unchanged. */
  lemma CleanUnchanged(s: string)
    requires forall i :: 0 <= i < |s| ==> !Escaped(s[i])
    ensures EscapeJsonString(s) == s
  {
    EscapePassIsPerChar(s);
    EscapeCharsClean(s);
    assert '\\' !in s;
    forall i | 0 <= i < |Fragments| ensures Absent(s, Fragments[i]) {
      assert Fragments[i][1] == '\\' || Fragments[i][0] == '\\';
    }
    ReplaceEachNone(s, Fragments, Collapsed);
  }

  /** Conversely, a string holding a raw control character is always changed. */
  lemma ControlAlwaysChanged(s: string, i: nat)
    requires i < |s| && EscapedControl(s[i])
    ensures EscapeJsonString(s) != s
  {
    NoRawControl(s);
  }

  /**
   * Backspace becomes \f and form feed becomes \b (the reverse of the JSON
   * escapes for these characters), and the backslash the replacement inserts
   * is not doubled again.
   */
  lemma BackspaceFormFeedSwapped()
    ensures EscapeJsonString([Backspace]) == ['\\', 'f']
    ensures EscapeJsonString([FormFeed]) == ['\\', 'b']
    ensures EscapeJsonString("\n") == ['\\', 'n']
  {
    EscapePassChar(Backspace);
    EscapePassChar(FormFeed);
    EscapePassChar('\n');
    forall t | t in [['\\', 'f'], ['\\', 'b'], ['\\', 'n']]
      ensures CollapsePass(t) == t
    {
      forall i | 0 <= i < |Fragments| ensures Absent(t, Fragments[i]) {
        assert Fragments[i][if i == 2 then 2 else 1] == '"' && '"' !in t;
      }
      ReplaceEachNone(t, Fragments, Collapsed);
    }
  }

  // ---------------------------------------------------------------------------
  // Simple JSON objects pass through unchanged

  /** No match can start inside a prefix that lacks the first search character. */
  lemma {:induction false} SkipPrefix(a: string, b: string, from: string, to: string)
    requires |from| > 0 && from[0] !in a
    ensures ReplaceAll(a + b, from, to) == a + ReplaceAll(b, from, to)
    decreases |a|
  {
    if a != [] {
      if |a + b| >= |from| {
        assert (a + b)[..|from|][0] == a[0];
      } else {
        assert ReplaceAll(b, from, to) == b;
      }
      assert (a + b)[1..] == a[1..] + b;
      SkipPrefix(a[1..], b, from, to);
    } else {
      assert a + b == b;
    }
  }

  /** A subject that starts with the search string has it replaced at once. */
  lemma MatchHere(b: string, from: string, to: string)
    requires |from| > 0
    ensures ReplaceAll(from + b, from, to) == to + ReplaceAll(b, from, to)
  {
    assert (from + b)[..|from|] == from;
    assert (from + b)[|from|..] == b;
  }

  /** The second pass is its four replacements, one after the other. */
  lemma CollapseSteps(s: string)
    ensures CollapsePass(s) ==
      ReplaceAll(ReplaceAll(ReplaceAll(ReplaceAll(s, Fragments[0], Collapsed[0]),
        Fragments[1], Collapsed[1]), Fragments[2], Collapsed[2]), Fragments[3], Collapsed[3])
  {
    var s1 := ReplaceAll(s, Fragments[0], Collapsed[0]);
    assert Fragments[1..] == [Fragments[1], Fragments[2], Fragments[3]];
    assert Collapsed[1..] == [Collapsed[1], Collapsed[2], Collapsed[3]];
    var s2 := ReplaceAll(s1, Fragments[1], Collapsed[1]);
    var s3 := ReplaceAll(s2, Fragments[2], Collapsed[2]);
    var s4 := ReplaceAll(s3, Fragments[3], Collapsed[3]);
    assert ReplaceEach(s3, [Fragments[3]], [Collapsed[3]]) == ReplaceEach(s4, [], []);
    assert ReplaceEach(s2, [Fragments[2], Fragments[3]], [Collapsed[2], Collapsed[3]])
        == ReplaceEach(s3, [Fragments[3]], [Collapsed[3]]);
    assert ReplaceEach(s1, Fragments[1..], Collapsed[1..])
        == ReplaceEach(s2, [Fragments[2], Fragments[3]], [Collapsed[2], Collapsed[3]]);
  }

  /** Characters that may appear in the key and value of a simple object. */
  predicate Plain(c: char) {
    !Escaped(c) && c != ':' && c != ',' && c != '{' && c != '}'
  }

  /** The object {"k":"v"} as text. */
  function SimpleObject(k: string, v: string): string {
    "{\"" + k + "\":\"" + v + "\"}"
  }

  /** Text made of plain characters only. */
  predicate PlainText(s: string) {
    forall i :: 0 <= i < |s| ==> Plain(s[i])
  }

  /** The characters plain text lacks, one by one. */
  lemma PlainLacks(s: string)
    requires PlainText(s)
    ensures forall i :: 0 <= i < |s| ==> !Escaped(s[i])
    ensures '\\' !in s && '"' !in s && ':' !in s && ',' !in s && '{' !in s
  {
  }

  lemma EscapeOpen()
    ensures EscapeChars("{\"") == Fragments[2]
  {
    var open := "{\"";
    assert open == [open[0]] + open[1..];
  }

  lemma EscapeMid()
    ensures EscapeChars("\":\"") == Fragments[0]
  {
    var mid := "\":\"";
    assert mid == [mid[0]] + mid[1..];
    assert mid[1..] == [mid[1]] + mid[2..];
  }

  lemma EscapeClose()
    ensures EscapeChars("\"}") == Fragments[3]
  {
    var close := "\"}";
    assert close == [close[0]] + close[1..];
  }

  /** The first pass escapes exactly the six structural quotes of a simple object. */
  lemma SimpleObjectFirstPass(k: string, v: string)
    requires forall i :: 0 <= i < |k| ==> !Escaped(k[i])
    requires forall i :: 0 <= i < |v| ==> !Escaped(v[i])
    ensures EscapePass(SimpleObject(k, v)) == Fragments[2] + (k + (Fragments[0] + (v + Fragments[3])))
  {
    var open, mid, close := "{\"", "\":\"", "\"}";
    EscapePassIsPerChar(SimpleObject(k, v));
    assert SimpleObject(k, v) == open + (k + (mid + (v + close)));
    EscapeCharsConcat(open, k + (mid + (v + close)));
    EscapeCharsConcat(k, mid + (v + close));
    EscapeCharsConcat(mid, v + close);
    EscapeCharsConcat(v, close);
    EscapeCharsClean(k);
    EscapeCharsClean(v);
    EscapeOpen();
    EscapeMid();
    EscapeClose();
  }

  /** A position where the search string does not start is copied. */
  lemma NoMatchStep(s: string, from: string, to: string)
    requires |from| > 0 && |s| > 0
    requires |s| >= |from| ==> s[..|from|] != from
    ensures ReplaceAll(s, from, to) == [s[0]] + ReplaceAll(s[1..], from, to)
  {
    if |s| < |from| {
      assert ReplaceAll(s[1..], from, to) == s[1..];
      assert s == [s[0]] + s[1..];
    }
  }

  lemma SimpleObjectColonTail(v: string)
    requires '\\' !in v
    ensures ReplaceAll(Fragments[0] + (v + Fragments[3]), Fragments[0], Collapsed[0])
         == Collapsed[0] + (v + Fragments[3])
  {
    var f0, c0 := Fragments[0], Collapsed[0];
    MatchHere(v + Fragments[3], f0, c0);
    SkipPrefix(v, Fragments[3], f0, c0);
    assert ReplaceAll(Fragments[3], f0, c0) == Fragments[3];
  }

  /** A five-character search string cannot start where the third character differs from its own. */
  lemma NoMatchThird(t: string, f: string)
    requires |f| == 5 && |t| >= 3 && t[2] != f[2]
    ensures |t| >= |f| ==> t[..|f|] != f
  {
    if |t| >= |f| {
      assert t[..|f|][2] == t[2];
    }
  }

  /**
   * An escaped quote followed by backslash-free text q does not start a match
   * of \":\" or \",\" when q's second character is not the search string's third.
   */
  lemma QuoteSkipped(q: string, tail: string, f: string, to: string)
    requires |f| == 5 && f[0] == '\\' && f[2] != '\\'
    requires |q| >= 1 && '\\' !in q && (|q| >= 2 ==> q[1] != f[2])
    requires |tail| > 0 && tail[0] == '\\'
    ensures ReplaceAll(['\\'] + (q + tail), f, to) == ['\\'] + (q + ReplaceAll(tail, f, to))
  {
    var t := ['\\'] + (q + tail);
    assert t[2] == if |q| >= 2 then q[1] else tail[0];
    NoMatchThird(t, f);
    NoMatchStep(t, f, to);
    assert t[1..] == q + tail;
    SkipPrefix(q, tail, f, to);
  }

  lemma SimpleObjectColonHead(k: string, tail: string, f0: string, c0: string)
    requires '\\' !in k && (k != [] ==> k[0] != ':') && |tail| > 0 && tail[0] == '\\'
    requires |f0| == 5 && f0[0] == '\\' && f0[2] == ':'
    ensures ReplaceAll(['{'] + (['\\'] + ((['"'] + k) + tail)), f0, c0)
         == ['{'] + (['\\'] + ((['"'] + k) + ReplaceAll(tail, f0, c0)))
  {
    var q := ['"'] + k;
    SkipPrefix(['{'], ['\\'] + (q + tail), f0, c0);
    QuoteSkipped(q, tail, f0, c0);
  }

  /** The replacement of \":\" hits the one separator of a simple object. */
  lemma SimpleObjectColon(k: string, v: string)
    requires '\\' !in k && ':' !in k && '\\' !in v
    ensures ReplaceAll(Fragments[2] + (k + (Fragments[0] + (v + Fragments[3]))), Fragments[0], Collapsed[0])
         == Fragments[2] + (k + (Collapsed[0] + (v + Fragments[3])))
  {
    var f0, c0 := Fragments[0], Collapsed[0];
    var tail := f0 + (v + Fragments[3]);
    var r := c0 + (v + Fragments[3]);
    var y := ['{'] + (['\\'] + ((['"'] + k) + tail));
    assert Fragments[2] + (k + tail) == y;
    assert ReplaceAll(y, f0, c0) == ['{'] + (['\\'] + ((['"'] + k) + ReplaceAll(tail, f0, c0))) by {
      SimpleObjectColonHead(k, tail, f0, c0);
    }
    assert ReplaceAll(tail, f0, c0) == r by {
      SimpleObjectColonTail(v);
    }
    assert ['{'] + (['\\'] + ((['"'] + k) + r)) == Fragments[2] + (k + r);
  }

  /** The replacement of {\" hits the opening brace only. */
  lemma SimpleObjectOpen(k: string, v: string)
    requires '{' !in k && '{' !in v
    ensures ReplaceAll(Fragments[2] + (k + (Collapsed[0] + (v + Fragments[3]))), Fragments[2], Collapsed[2])
         == Collapsed[2] + (k + (Collapsed[0] + (v + Fragments[3])))
  {
    var rest := k + (Collapsed[0] + (v + Fragments[3]));
    MatchHere(rest, Fragments[2], Collapsed[2]);
    assert '{' !in rest;
    ReplaceAllAbsent(rest, Fragments[2], Collapsed[2], 0);
  }

  /** The replacement of \"} hits the closing brace only. */
  lemma SimpleObjectClose(k: string, v: string)
    requires '\\' !in k && '\\' !in v
    ensures ReplaceAll(Collapsed[2] + (k + (Collapsed[0] + (v + Fragments[3]))), Fragments[3], Collapsed[3])
         == SimpleObject(k, v)
  {
    var f3, c3 := Fragments[3], Collapsed[3];
    var front := Collapsed[2] + (k + (Collapsed[0] + v));
    assert Collapsed[2] + (k + (Collapsed[0] + (v + f3))) == front + f3;
    assert '\\' !in front;
    SkipPrefix(front, f3, f3, c3);
    MatchHere([], f3, c3);
    assert f3 + [] == f3;
  }

  /** The replacement of \",\" finds nothing in a simple object. */
  lemma SimpleObjectNoComma(k: string, v: string)
    requires ',' !in k && ',' !in v
    ensures var x1 := Fragments[2] + (k + (Collapsed[0] + (v + Fragments[3])));
      ReplaceAll(x1, Fragments[1], Collapsed[1]) == x1
  {
    var x1 := Fragments[2] + (k + (Collapsed[0] + (v + Fragments[3])));
    assert ',' !in x1;
    ReplaceAllAbsent(x1, Fragments[1], Collapsed[1], 2);
  }

  /**
   * The second pass undoes the quote escaping around ":" , {" and "}: a
   * one-member object whose key and value are plain text comes back unchanged.
   */
  lemma SimpleObjectUnchanged(k: string, v: string)
    requires PlainText(k) && PlainText(v)
    ensures EscapeJsonString(SimpleObject(k, v)) == SimpleObject(k, v)
  {
    PlainLacks(k);
    PlainLacks(v);
    SimpleObjectFirstPass(k, v);
    var x0 := Fragments[2] + (k + (Fragments[0] + (v + Fragments[3])));
    CollapseSteps(x0);
    SimpleObjectColon(k, v);
    SimpleObjectNoComma(k, v);
    SimpleObjectOpen(k, v);
    SimpleObjectClose(k, v);
  }

  /** A concrete instance: {"a":"b"} survives escaping. */
  lemma SimpleObjectExample()
    ensures EscapeJsonString("{\"a\":\"b\"}") == "{\"a\":\"b\"}"
  {
    SimpleObjectUnchanged("a", "b");
    assert SimpleObject("a", "b") == "{\"a\":\"b\"}";
  }

  lemma EscapeComma()
    ensures EscapeChars("\",\"") == Fragments[1]
  {
    var comma := "\",\"";
    assert comma == [comma[0]] + comma[1..];
    assert comma[1..] == [comma[1]] + comma[2..];
  }

  lemma AppendAssoc(x: string, y: string, z: string)
    ensures (x + y) + z == x + (y + z)
  {
  }

  /** The escaped opening {\" taken apart character by character. */
  lemma OpenSplit(k: string, z: string)
    ensures Fragments[2] + (k + z) == ['{'] + (['\\'] + ((['"'] + k) + z))
  {
    assert Fragments[2] == ['{'] + (['\\'] + ['"']);
    AppendAssoc(['{'], ['\\'] + ['"'], k + z);
    AppendAssoc(['\\'], ['"'], k + z);
    AppendAssoc(['"'], k, z);
  }

  /** The escaped separator \",\" and the quote of the key after it, taken apart. */
  lemma CommaSplit(k: string, z: string)
    ensures Fragments[1] + (k + z) == ['\\'] + (['"', ','] + (['\\'] + ((['"'] + k) + z)))
  {
    assert Fragments[1] == ['\\'] + (['"', ','] + (['\\'] + ['"']));
    AppendAssoc(['\\'], ['"', ','] + (['\\'] + ['"']), k + z);
    AppendAssoc(['"', ','], ['\\'] + ['"'], k + z);
    AppendAssoc(['\\'], ['"'], k + z);
    AppendAssoc(['"'], k, z);
  }

  /** Regrouping a quoted key and the text after it around a suffix w. */
  lemma QuoteRegroup(k: string, c: string, v: string, w: string)
    ensures (['"'] + k) + (c + (v + w)) == (['"'] + (k + (c + v))) + w
  {
    AppendAssoc(['"'], k, c + (v + w));
    AppendAssoc(['"'], k + (c + v), w);
    AppendAssoc(k, c + v, w);
    AppendAssoc(c, v, w);
  }

  /** A suffix appended to the second value of a two-member body lands at its end. */
  lemma PairBodyAppend(v1: string, c1: string, k2: string, c0: string, v2: string, t: string)
    ensures (v1 + (c1 + (k2 + (c0 + v2)))) + t == v1 + (c1 + (k2 + (c0 + (v2 + t))))
  {
    AppendAssoc(v1, c1 + (k2 + (c0 + v2)), t);
    AppendAssoc(c1, k2 + (c0 + v2), t);
    AppendAssoc(k2, c0 + v2, t);
    AppendAssoc(c0, v2, t);
  }

  /** Which structural characters the collapsed separators and the escaped closing brace hold. */
  lemma SeparatorChars()
    ensures '\\' !in Collapsed[0] && '{' !in Collapsed[0] && ',' !in Collapsed[0] && Collapsed[0][0] == '"'
    ensures '\\' !in Collapsed[1] && '{' !in Collapsed[1]
    ensures '\\' !in Collapsed[2]
    ensures '{' !in Fragments[3] && ',' !in Fragments[3]
    ensures |Fragments[0]| == 5 && Fragments[0][0] == '\\' && Fragments[0][2] == ':'
    ensures |Fragments[1]| == 5 && Fragments[1][0] == '\\' && Fragments[1][2] == ','
  {
    assert Collapsed[0] == ['"', ':', '"'];
    assert Collapsed[1] == ['"', ',', '"'];
    assert Collapsed[2] == ['{', '"'];
    assert Fragments[3] == ['\\', '"', '}'];
  }

  /** The object {"k1":"v1","k2":"v2"} as text. */
  function PairObject(k1: string, v1: string, k2: string, v2: string): string {
    "{\"" + k1 + "\":\"" + v1 + "\",\"" + k2 + "\":\"" + v2 + "\"}"
  }

  /** Nine pieces joined left to right are the same text grouped to the right. */
  lemma Regroup9(a: string, b: string, c: string, d: string, e: string, f: string, g: string, h: string, i: string)
    ensures a + b + c + d + e + f + g + h + i == a + (b + (c + (d + (e + (f + (g + (h + i)))))))
  {
    AppendAssoc(a + b + c + d + e + f + g, h, i);
    AppendAssoc(a + b + c + d + e + f, g, h + i);
    AppendAssoc(a + b + c + d + e, f, g + (h + i));
    AppendAssoc(a + b + c + d, e, f + (g + (h + i)));
    AppendAssoc(a + b + c, d, e + (f + (g + (h + i))));
    AppendAssoc(a + b, c, d + (e + (f + (g + (h + i)))));
    AppendAssoc(a, b, c + (d + (e + (f + (g + (h + i))))));
  }

  /** The first pass on the second member and the closing quote. */
  lemma EscapeSecondMember(k: string, v: string)
    requires forall i :: 0 <= i < |k| ==> !Escaped(k[i])
    requires forall i :: 0 <= i < |v| ==> !Escaped(v[i])
    ensures EscapeChars(k + ("\":\"" + (v + "\"}"))) == k + (Fragments[0] + (v + Fragments[3]))
  {
    var mid, close := "\":\"", "\"}";
    EscapeCharsConcat(k, mid + (v + close));
    EscapeCharsConcat(mid, v + close);
    EscapeCharsConcat(v, close);
    EscapeCharsClean(k);
    EscapeCharsClean(v);
    EscapeMid();
    EscapeClose();
  }

  /** The first pass escapes exactly the ten structural quotes of a two-member object. */
  lemma PairFirstPass(k1: string, v1: string, k2: string, v2: string)
    requires forall i :: 0 <= i < |k1| ==> !Escaped(k1[i])
    requires forall i :: 0 <= i < |v1| ==> !Escaped(v1[i])
    requires forall i :: 0 <= i < |k2| ==> !Escaped(k2[i])
    requires forall i :: 0 <= i < |v2| ==> !Escaped(v2[i])
    ensures EscapePass(PairObject(k1, v1, k2, v2))
         == Fragments[2] + (k1 + (Fragments[0] + (v1 + (Fragments[1] + (k2 + (Fragments[0] + (v2 + Fragments[3])))))))
  {
    var open, mid, comma, close := "{\"", "\":\"", "\",\"", "\"}";
    var second := k2 + (mid + (v2 + close));
    EscapePassIsPerChar(PairObject(k1, v1, k2, v2));
    Regroup9(open, k1, mid, v1, comma, k2, mid, v2, close);
    EscapeCharsConcat(open, k1 + (mid + (v1 + (comma + second))));
    EscapeCharsConcat(k1, mid + (v1 + (comma + second)));
    EscapeCharsConcat(mid, v1 + (comma + second));
    EscapeCharsConcat(v1, comma + second);
    EscapeCharsConcat(comma, second);
    EscapeCharsClean(k1);
    EscapeCharsClean(v1);
    EscapeOpen();
    EscapeMid();
    EscapeComma();
    EscapeSecondMember(k2, v2);
  }

  /** In the escaped second member, \",\" is passed over and the one \":\" replaced. */
  lemma PairColonSecond(k2: string, v2: string)
    requires '\\' !in k2 && ':' !in k2 && '\\' !in v2
    ensures ReplaceAll(Fragments[1] + (k2 + (Fragments[0] + (v2 + Fragments[3]))), Fragments[0], Collapsed[0])
         == Fragments[1] + (k2 + (Collapsed[0] + (v2 + Fragments[3])))
  {
    var f0, c0 := Fragments[0], Collapsed[0];
    var tail := f0 + (v2 + Fragments[3]);
    var inner := ['\\'] + ((['"'] + k2) + tail);
    SeparatorChars();
    CommaSplit(k2, tail);
    QuoteSkipped(['"', ','], inner, f0, c0);
    QuoteSkipped(['"'] + k2, tail, f0, c0);
    SimpleObjectColonTail(v2);
    CommaSplit(k2, c0 + (v2 + Fragments[3]));
  }

  lemma PairColonTail(v1: string, k2: string, v2: string)
    requires '\\' !in v1 && '\\' !in k2 && ':' !in k2 && '\\' !in v2
    ensures ReplaceAll(Fragments[0] + (v1 + (Fragments[1] + (k2 + (Fragments[0] + (v2 + Fragments[3]))))),
                       Fragments[0], Collapsed[0])
         == Collapsed[0] + (v1 + (Fragments[1] + (k2 + (Collapsed[0] + (v2 + Fragments[3])))))
  {
    var f0, c0 := Fragments[0], Collapsed[0];
    var rest := Fragments[1] + (k2 + (f0 + (v2 + Fragments[3])));
    MatchHere(v1 + rest, f0, c0);
    SkipPrefix(v1, rest, f0, c0);
    PairColonSecond(k2, v2);
  }

  /** The replacement of \":\" hits both separators of a two-member object. */
  lemma PairColon(k1: string, v1: string, k2: string, v2: string)
    requires '\\' !in k1 && ':' !in k1 && '\\' !in v1 && '\\' !in k2 && ':' !in k2 && '\\' !in v2
    ensures ReplaceAll(Fragments[2] + (k1 + (Fragments[0] + (v1 + (Fragments[1] + (k2 + (Fragments[0] + (v2 + Fragments[3]))))))),
                       Fragments[0], Collapsed[0])
         == Fragments[2] + (k1 + (Collapsed[0] + (v1 + (Fragments[1] + (k2 + (Collapsed[0] + (v2 + Fragments[3])))))))
  {
    var f0, c0 := Fragments[0], Collapsed[0];
    var tail := f0 + (v1 + (Fragments[1] + (k2 + (f0 + (v2 + Fragments[3])))));
    SeparatorChars();
    OpenSplit(k1, tail);
    SimpleObjectColonHead(k1, tail, f0, c0);
    PairColonTail(v1, k2, v2);
    OpenSplit(k1, c0 + (v1 + (Fragments[1] + (k2 + (c0 + (v2 + Fragments[3]))))));
  }

  /** With no backslash in the text, the closing \"} cannot hold a \",\" match. */
  lemma PairCommaRest(k2: string, v2: string)
    requires '\\' !in k2 && '\\' !in v2
    ensures var b := k2 + (Collapsed[0] + (v2 + Fragments[3]));
      ReplaceAll(b, Fragments[1], Collapsed[1]) == b
  {
    var f1, c1 := Fragments[1], Collapsed[1];
    var front := k2 + (Collapsed[0] + v2);
    assert k2 + (Collapsed[0] + (v2 + Fragments[3])) == front + Fragments[3];
    assert '\\' !in front;
    SkipPrefix(front, Fragments[3], f1, c1);
    assert ReplaceAll(Fragments[3], f1, c1) == Fragments[3];
  }

  /** The quoted first key and its value, up to the escaped quote before the comma. */
  lemma QuotedMember(k: string, c: string, v: string)
    requires '\\' !in k && ',' !in k && '\\' !in c && |c| > 0 && c[0] == '"' && '\\' !in v
    ensures var q := ['"'] + (k + (c + v)); |q| >= 2 && q[1] != ',' && '\\' !in q
  {
    var q := ['"'] + (k + (c + v));
    assert q[1] == if k != [] then k[0] else c[0];
  }

  /** After the opening brace, an escaped quote and backslash-free q, the search string is found. */
  lemma MatchAfterQuote(q: string, b: string, f: string, to: string)
    requires |f| == 5 && f[0] == '\\' && f[2] != '\\'
    requires |q| >= 1 && '\\' !in q && (|q| >= 2 ==> q[1] != f[2])
    ensures ReplaceAll(['{'] + (['\\'] + (q + (f + b))), f, to) == ['{'] + (['\\'] + (q + (to + ReplaceAll(b, f, to))))
  {
    SkipPrefix(['{'], ['\\'] + (q + (f + b)), f, to);
    QuoteSkipped(q, f + b, f, to);
    MatchHere(b, f, to);
  }

  /** The replacement of \",\" hits the one member separator. */
  lemma PairComma(k1: string, v1: string, k2: string, v2: string)
    requires '\\' !in k1 && ',' !in k1 && '\\' !in v1 && '\\' !in k2 && '\\' !in v2
    ensures ReplaceAll(Fragments[2] + (k1 + (Collapsed[0] + (v1 + (Fragments[1] + (k2 + (Collapsed[0] + (v2 + Fragments[3]))))))),
                       Fragments[1], Collapsed[1])
         == Fragments[2] + (k1 + (Collapsed[0] + (v1 + (Collapsed[1] + (k2 + (Collapsed[0] + (v2 + Fragments[3])))))))
  {
    var c0, f1, c1 := Collapsed[0], Fragments[1], Collapsed[1];
    var b := k2 + (c0 + (v2 + Fragments[3]));
    var q := ['"'] + (k1 + (c0 + v1));
    SeparatorChars();
    QuotedMember(k1, c0, v1);
    OpenSplit(k1, c0 + (v1 + (f1 + b)));
    QuoteRegroup(k1, c0, v1, f1 + b);
    MatchAfterQuote(q, b, f1, c1);
    PairCommaRest(k2, v2);
    OpenSplit(k1, c0 + (v1 + (c1 + b)));
    QuoteRegroup(k1, c0, v1, c1 + b);
  }

  /** The replacement of {\" hits the opening brace only. */
  lemma PairOpen(k1: string, v1: string, k2: string, v2: string)
    requires '{' !in k1 && '{' !in v1 && '{' !in k2 && '{' !in v2
    ensures ReplaceAll(Fragments[2] + (k1 + (Collapsed[0] + (v1 + (Collapsed[1] + (k2 + (Collapsed[0] + (v2 + Fragments[3]))))))),
                       Fragments[2], Collapsed[2])
         == Collapsed[2] + (k1 + (Collapsed[0] + (v1 + (Collapsed[1] + (k2 + (Collapsed[0] + (v2 + Fragments[3])))))))
  {
    var c0, c1, f3 := Collapsed[0], Collapsed[1], Fragments[3];
    var v := v1 + (c1 + (k2 + (c0 + v2)));
    assert '{' !in v by {
      SeparatorChars();
    }
    PairBodyAppend(v1, c1, k2, c0, v2, f3);
    SimpleObjectOpen(k1, v);
  }

  lemma Regroup5(a: string, b: string, c: string, d: string, e: string)
    ensures a + b + c + d + e == a + (b + (c + (d + e)))
  {
    AppendAssoc(a + b + c, d, e);
    AppendAssoc(a + b, c, d + e);
    AppendAssoc(a, b, c + (d + e));
  }

  /** A two-member object is a one-member object whose value runs on to the second member. */
  lemma PairAsSimple(k1: string, v1: string, k2: string, v2: string)
    ensures PairObject(k1, v1, k2, v2) == SimpleObject(k1, v1 + (Collapsed[1] + (k2 + (Collapsed[0] + v2))))
  {
    var open, mid, comma, close := "{\"", "\":\"", "\",\"", "\"}";
    assert Collapsed[0] == mid && Collapsed[1] == comma;
    var v := v1 + (comma + (k2 + (mid + v2)));
    Regroup9(open, k1, mid, v1, comma, k2, mid, v2, close);
    Regroup5(open, k1, mid, v, close);
    PairBodyAppend(v1, comma, k2, mid, v2, close);
  }

  /** The replacement of \"} hits the closing brace only. */
  lemma PairClose(k1: string, v1: string, k2: string, v2: string)
    requires '\\' !in k1 && '\\' !in v1 && '\\' !in k2 && '\\' !in v2
    ensures ReplaceAll(Collapsed[2] + (k1 + (Collapsed[0] + (v1 + (Collapsed[1] + (k2 + (Collapsed[0] + (v2 + Fragments[3]))))))),
                       Fragments[3], Collapsed[3])
         == PairObject(k1, v1, k2, v2)
  {
    var c0, c1, f3 := Collapsed[0], Collapsed[1], Fragments[3];
    var v := v1 + (c1 + (k2 + (c0 + v2)));
    assert '\\' !in v by {
      SeparatorChars();
    }
    PairBodyAppend(v1, c1, k2, c0, v2, f3);
    SimpleObjectClose(k1, v);
    PairAsSimple(k1, v1, k2, v2);
  }

  /**
   * The second pass also restores the separator "," between members: a
   * two-member object whose keys and values are plain text comes back unchanged.
   */
  lemma PairObjectUnchanged(k1: string, v1: string, k2: string, v2: string)
    requires PlainText(k1) && PlainText(v1) && PlainText(k2) && PlainText(v2)
    ensures EscapeJsonString(PairObject(k1, v1, k2, v2)) == PairObject(k1, v1, k2, v2)
  {
    PlainLacks(k1);
    PlainLacks(v1);
    PlainLacks(k2);
    PlainLacks(v2);
    PairFirstPass(k1, v1, k2, v2);
    var x0 := Fragments[2] + (k1 + (Fragments[0] + (v1 + (Fragments[1] + (k2 + (Fragments[0] + (v2 + Fragments[3])))))));
    CollapseSteps(x0);
    PairColon(k1, v1, k2, v2);
    PairComma(k1, v1, k2, v2);
    PairOpen(k1, v1, k2, v2);
    PairClose(k1, v1, k2, v2);
  }

  // ---------------------------------------------------------------------------
  // What a JSON reader makes of the first pass

  /**
   * The character a two-character escape denotes in a JSON string (section 9
   * of ECMA-404); \u escapes are not modelled, since the first pass never
   * emits one.
   */
  function JsonUnescape(c: char): Option<char> {
    if c == '"' then Some('"')
    else if c == '\\' then Some('\\')
    else if c == '/' then Some('/')
    else if c == 'b' then Some(Backspace)
    else if c == 'f' then Some(FormFeed)
    else if c == 'n' then Some('\n')
    else if c == 'r' then Some('\r')
    else if c == 't' then Some('\t')
    else None
  }

  /**
   * The contents of a JSON string literal, read back: None when the text is
   * not valid string content (a bare quote, a raw control character, an
   * unknown or unfinished escape).
   */
  function JsonDecodeChars(t: string): Option<string>
    decreases |t|
  {
    if t == [] then Some([])
    else if t[0] == '\\' then
      if |t| < 2 then None
      else match (JsonUnescape(t[1]), JsonDecodeChars(t[2..]))
        case (Some(c), Some(rest)) => Some([c] + rest)
        case _ => None
    else if t[0] == '"' || t[0] < ' ' then None
    else match JsonDecodeChars(t[1..])
      case Some(rest) => Some([t[0]] + rest)
      case None => None
  }

  /** Backspace and form feed exchanged, every other character kept. */
  function SwapChar(c: char): char {
    if c == Backspace then FormFeed else if c == FormFeed then Backspace else c
  }

  function SwapBackspaceFormFeed(s: string): (r: string)
    ensures |r| == |s|
    decreases |s|
  {
    if s == [] then [] else [SwapChar(s[0])] + SwapBackspaceFormFeed(s[1..])
  }

  /** The only control characters the first pass knows how to escape. */
  predicate NoOtherControl(s: string) {
    forall i :: 0 <= i < |s| ==> s[i] >= ' ' || EscapedControl(s[i])
  }

  /** A JSON reader turns one escaped character back into itself, backspace and form feed swapped. */
  lemma DecodeEscapeChar(c: char, rest: string)
    requires c >= ' ' || EscapedControl(c)
    ensures JsonDecodeChars(EscapeChar(c) + rest) ==
      match JsonDecodeChars(rest)
      case Some(r) => Some([SwapChar(c)] + r)
      case None => None
  {
    var e := EscapeChar(c);
    if |e| == 2 {
      assert (e + rest)[0] == '\\' && (e + rest)[1] == e[1];
      assert (e + rest)[2..] == rest;
      assert JsonUnescape(e[1]) == Some(SwapChar(c));
    } else {
      assert e == [c];
      assert (e + rest)[0] == c && (e + rest)[1..] == rest;
    }
  }

  /**
   * Read back as JSON string content, the first pass gives the input with
   * backspace and form feed exchanged: the replacement table swaps \b and \f.
   */
  lemma {:induction false} EscapeCharsDecode(s: string)
    requires NoOtherControl(s)
    ensures JsonDecodeChars(EscapeChars(s)) == Some(SwapBackspaceFormFeed(s))
    decreases |s|
  {
    if s != [] {
      assert NoOtherControl(s[1..]) by {
        forall i | 0 <= i < |s[1..]| ensures s[1..][i] >= ' ' || EscapedControl(s[1..][i]) {
          assert s[1..][i] == s[i + 1];
        }
      }
      EscapeCharsDecode(s[1..]);
      assert s[0] >= ' ' || EscapedControl(s[0]);
      DecodeEscapeChar(s[0], EscapeChars(s[1..]));
    }
  }

  /** A raw control character other than the five is left in the output, which JSON forbids. */
  lemma OtherControlKept()
    ensures EscapeJsonString(['\U{1}']) == ['\U{1}']
    ensures JsonDecodeChars(EscapeJsonString(['\U{1}'])) == None
  {
    CleanUnchanged(['\U{1}']);
  }
}
