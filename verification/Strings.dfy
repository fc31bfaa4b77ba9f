/** Text primitives with the behaviour of Go's `strings` package on byte strings. */
module Strings {
  predicate HasPrefix(s: string, prefix: string) {
    |prefix| <= |s| && s[..|prefix|] == prefix
  }

  predicate HasSuffix(s: string, suffix: string) {
    |suffix| <= |s| && s[|s| - |suffix|..] == suffix
  }

  function TrimSuffix(s: string, suffix: string): string {
    if HasSuffix(s, suffix) then s[..|s| - |suffix|] else s
  }

  /** dns.Fqdn on names without escapes, and the generator's own ensureTrailingDot. */
  function EnsureTrailingDot(s: string): string { if HasSuffix(s, ".") then s else s + "." }

  function TrimPrefix(s: string, prefix: string): string {
    if HasPrefix(s, prefix) then s[|prefix|..] else s
  }

  /** The first position of c in s. */
  function Index(s: string, c: char): (i: nat)
    requires c in s
    ensures i < |s| && s[i] == c && c !in s[..i]
  {
    if s[0] == c then 0 else 1 + Index(s[1..], c)
  }

  /** strings.Split on a one-character separator: always at least one part. */
  function Split(s: string, sep: char): (parts: seq<string>)
    ensures |parts| >= 1
    ensures forall i :: 0 <= i < |parts| ==> sep !in parts[i]
    decreases |s|
  {
    if sep !in s then [s] else var i := Index(s, sep); [s[..i]] + Split(s[i + 1..], sep)
  }

  /** strings.SplitAfter on a one-character separator: the parts keep their separator. */
  function SplitAfter(s: string, sep: char): (parts: seq<string>)
    ensures |parts| >= 1
    decreases |s|
  {
    if sep !in s then [s] else var i := Index(s, sep); [s[..i + 1]] + SplitAfter(s[i + 1..], sep)
  }

  function Join(parts: seq<string>, sep: string): string {
    if |parts| == 0 then ""
    else if |parts| == 1 then parts[0]
    else parts[0] + sep + Join(parts[1..], sep)
  }

  lemma Assoc<T>(a: seq<T>, b: seq<T>, c: seq<T>)
    ensures a + (b + c) == a + b + c
  {
  }

  function Concat(parts: seq<string>): string {
    if parts == [] then "" else parts[0] + Concat(parts[1..])
  }

  /** Every line terminated by a newline. */
  function Unlines(lines: seq<string>): string {
    if lines == [] then "" else lines[0] + "\n" + Unlines(lines[1..])
  }

  predicate NoNewline(s: string) { '\n' !in s }

  lemma NoNewlineConcat(a: string, b: string)
    ensures NoNewline(a + b) <==> NoNewline(a) && NoNewline(b)
  {
    if NoNewline(a + b) {
      forall c | c in a ensures c in a + b {}
      forall c | c in b ensures c in a + b {}
    }
  }

  ghost predicate LineList(lines: seq<string>) { forall l :: l in lines ==> NoNewline(l) }

  function LowerChar(c: char): char {
    if 'A' <= c <= 'Z' then (c as int + 32) as char else c
  }

  /** strings.ToLower, on ASCII. */
  function Lower(s: string): (t: string)
    ensures |t| == |s|
    ensures forall i :: 0 <= i < |s| ==> t[i] == LowerChar(s[i])
  {
    if s == "" then "" else [LowerChar(s[0])] + Lower(s[1..])
  }

  /** Go's `<` on strings: byte-wise lexicographic order. */
  predicate Less(a: string, b: string) {
    if b == "" then false
    else if a == "" then true
    else if a[0] != b[0] then a[0] < b[0]
    else Less(a[1..], b[1..])
  }

  lemma {:induction false} LessTotal(a: string, b: string)
    ensures a == b <==> !Less(a, b) && !Less(b, a)
    ensures !(Less(a, b) && Less(b, a))
  {
    if a != "" && b != "" && a[0] == b[0] {
      LessTotal(a[1..], b[1..]);
      assert a == [a[0]] + a[1..] && b == [b[0]] + b[1..];
    }
  }

  lemma {:induction false} LessTransitive(a: string, b: string, c: string)
    requires Less(a, b) && Less(b, c)
    ensures Less(a, c)
  {
    if a != "" && a[0] == b[0] && b[0] == c[0] {
      LessTransitive(a[1..], b[1..], c[1..]);
    }
  }

  // ---- splitting and joining ------------------------------------------------------------------

  lemma {:induction false} IndexAppend(a: string, sep: char, b: string)
    requires sep !in a
    ensures Index(a + [sep] + b, sep) == |a|
  {
    var s := a + [sep] + b;
    assert s[|a|] == sep;
    if a != "" {
      assert s[0] == a[0];
      assert s[1..] == a[1..] + [sep] + b;
      IndexAppend(a[1..], sep, b);
    }
  }

  lemma SplitCons(a: string, sep: char, b: string)
    requires sep !in a
    ensures Split(a + [sep] + b, sep) == [a] + Split(b, sep)
  {
    var s := a + [sep] + b;
    assert s[|a|] == sep;
    IndexAppend(a, sep, b);
    assert s[..|a|] == a && s[|a| + 1..] == b;
  }

  lemma SplitAfterCons(a: string, sep: char, b: string)
    requires sep !in a
    ensures SplitAfter(a + [sep] + b, sep) == [a + [sep]] + SplitAfter(b, sep)
  {
    var s := a + [sep] + b;
    assert s[|a|] == sep;
    IndexAppend(a, sep, b);
    assert s[..|a| + 1] == a + [sep] && s[|a| + 1..] == b;
  }

  lemma {:induction false} SplitJoin(parts: seq<string>, sep: char)
    requires |parts| >= 1
    requires forall p :: p in parts ==> sep !in p
    ensures Split(Join(parts, [sep]), sep) == parts
  {
    if |parts| == 1 {
    } else {
      SplitJoin(parts[1..], sep);
      SplitCons(parts[0], sep, Join(parts[1..], [sep]));
    }
  }

  lemma {:induction false} JoinSplit(s: string, sep: char)
    ensures Join(Split(s, sep), [sep]) == s
    decreases |s|
  {
    if sep in s {
      var i := Index(s, sep);
      JoinSplit(s[i + 1..], sep);
      var tail := Split(s[i + 1..], sep);
      assert Split(s, sep)[1..] == tail;
      assert s == s[..i] + [sep] + s[i + 1..];
    }
  }

  lemma JoinInjective(a: seq<string>, b: seq<string>, sep: char)
    requires |a| >= 1 && |b| >= 1
    requires (forall p :: p in a ==> sep !in p) && (forall p :: p in b ==> sep !in p)
    requires Join(a, [sep]) == Join(b, [sep])
    ensures a == b
  {
    SplitJoin(a, sep);
    SplitJoin(b, sep);
  }

  lemma {:induction false} JoinConcat(a: seq<string>, b: seq<string>, sep: string)
    requires |a| >= 1 && |b| >= 1
    ensures Join(a + b, sep) == Join(a, sep) + sep + Join(b, sep)
  {
    if |a| == 1 {
      assert (a + b)[1..] == b;
    } else {
      assert (a + b)[1..] == a[1..] + b;
      JoinConcat(a[1..], b, sep);
    }
  }

  lemma {:induction false} ConcatCons(a: string, rest: seq<string>)
    ensures Concat([a] + rest) == a + Concat(rest)
  {
    assert ([a] + rest)[1..] == rest;
  }

  lemma {:induction false} ConcatSplitAfter(s: string, sep: char)
    ensures Concat(SplitAfter(s, sep)) == s
    decreases |s|
  {
    hide Concat;
    if sep in s {
      var i := Index(s, sep);
      ConcatSplitAfter(s[i + 1..], sep);
      ConcatCons(s[..i + 1], SplitAfter(s[i + 1..], sep));
    } else {
      OnePart(s);
    }
  }

  lemma OnePart(s: string)
    ensures Concat([s]) == s
  {
    assert [s][1..] == [];
  }

  lemma {:induction false} ConcatAppend(a: seq<string>, b: seq<string>)
    ensures Concat(a + b) == Concat(a) + Concat(b)
  {
    if a == [] {
      assert a + b == b;
    } else {
      assert (a + b)[1..] == a[1..] + b;
      ConcatAppend(a[1..], b);
    }
  }

  // ---- lines ------------------------------------------------------------------------------------

  lemma {:induction false} UnlinesAppend(a: seq<string>, b: seq<string>)
    ensures Unlines(a + b) == Unlines(a) + Unlines(b)
  {
    if a == [] {
      assert a + b == b;
    } else {
      assert (a + b)[1..] == a[1..] + b;
      UnlinesAppend(a[1..], b);
    }
  }

  /** Cutting a newline-terminated text at its newlines gives its lines back, and one empty part after the last. */
  lemma {:induction false} SplitUnlines(lines: seq<string>)
    requires LineList(lines)
    ensures Split(Unlines(lines), '\n') == lines + [""]
  {
    if lines != [] {
      SplitUnlines(lines[1..]);
      assert NoNewline(lines[0]);
      SplitCons(lines[0], '\n', Unlines(lines[1..]));
      Assoc([lines[0]], lines[1..], [""]);
      assert [lines[0]] + lines[1..] == lines;
    }
  }

  function Terminated(lines: seq<string>): (r: seq<string>)
    ensures |r| == |lines|
    ensures forall i :: 0 <= i < |lines| ==> r[i] == lines[i] + "\n"
  {
    if lines == [] then [] else [lines[0] + "\n"] + Terminated(lines[1..])
  }

  lemma {:induction false} SplitAfterLinesThen(lines: seq<string>, rest: string)
    requires LineList(lines)
    ensures SplitAfter(Unlines(lines) + rest, '\n') == Terminated(lines) + SplitAfter(rest, '\n')
  {
    if lines == [] {
      assert Unlines(lines) + rest == rest;
    } else {
      assert NoNewline(lines[0]);
      SplitAfterLinesThen(lines[1..], rest);
      Assoc(lines[0] + "\n", Unlines(lines[1..]), rest);
      SplitAfterCons(lines[0], '\n', Unlines(lines[1..]) + rest);
      Assoc([lines[0] + "\n"], Terminated(lines[1..]), SplitAfter(rest, '\n'));
    }
  }

  lemma {:induction false} SplitLinesThen(lines: seq<string>, rest: string)
    requires LineList(lines)
    ensures Split(Unlines(lines) + rest, '\n') == lines + Split(rest, '\n')
  {
    if lines == [] {
      assert Unlines(lines) + rest == rest;
    } else {
      assert NoNewline(lines[0]);
      var u := Unlines(lines[1..]) + rest;
      calc {
        Split(Unlines(lines) + rest, '\n');
        { Assoc(lines[0] + "\n", Unlines(lines[1..]), rest); }
        Split(lines[0] + "\n" + u, '\n');
        { SplitCons(lines[0], '\n', u); }
        [lines[0]] + Split(u, '\n');
        { SplitLinesThen(lines[1..], rest); }
        [lines[0]] + (lines[1..] + Split(rest, '\n'));
        { Assoc([lines[0]], lines[1..], Split(rest, '\n')); }
        [lines[0]] + lines[1..] + Split(rest, '\n');
        { assert [lines[0]] + lines[1..] == lines; }
        lines + Split(rest, '\n');
      }
    }
  }

  lemma {:induction false} ConcatTerminated(lines: seq<string>)
    ensures Concat(Terminated(lines)) == Unlines(lines)
  {
    if lines != [] {
      ConcatTerminated(lines[1..]);
      assert Terminated(lines)[1..] == Terminated(lines[1..]);
    }
  }

  lemma TrimNewline(l: string)
    ensures TrimSuffix(l + "\n", "\n") == l
  {
  }

  ghost predicate PartsOfLines(parts: seq<string>, lines: seq<string>) {
    && |parts| == |lines| >= 1
    && (forall k :: 0 <= k < |parts| - 1 ==> parts[k] == lines[k] + "\n")
    && parts[|parts| - 1] == lines[|lines| - 1]
  }

  lemma {:induction false} PartsOfLinesCons(a: string, parts: seq<string>, lines: seq<string>)
    requires PartsOfLines(parts, lines)
    ensures PartsOfLines([a + "\n"] + parts, [a] + lines)
  {
  }

  /** The parts of SplitAfter are the lines of Split, each but the last with its newline. */
  lemma {:induction false} SplitAfterLines(s: string)
    ensures PartsOfLines(SplitAfter(s, '\n'), Split(s, '\n')) && LineList(Split(s, '\n'))
    decreases |s|
  {
    hide PartsOfLines;
    if '\n' in s {
      var i := Index(s, '\n');
      SplitAfterLines(s[i + 1..]);
      PrefixStep(s, i);
      PartsOfLinesCons(s[..i], SplitAfter(s[i + 1..], '\n'), Split(s[i + 1..], '\n'));
    } else {
      OneLinePart(s);
    }
  }

  lemma PrefixStep<T>(s: seq<T>, i: nat)
    requires i < |s|
    ensures s[..i + 1] == s[..i] + [s[i]]
  {
  }

  lemma OneLinePart(s: string)
    ensures PartsOfLines([s], [s])
  {
  }

  lemma SplitAfterTrimmed(s: string, k: nat)
    requires k < |SplitAfter(s, '\n')|
    ensures |Split(s, '\n')| == |SplitAfter(s, '\n')|
    ensures TrimSuffix(SplitAfter(s, '\n')[k], "\n") == Split(s, '\n')[k]
    ensures k + 1 < |Split(s, '\n')| ==> SplitAfter(s, '\n')[k] == Split(s, '\n')[k] + "\n"
  {
    SplitAfterLines(s);
    var lines := Split(s, '\n');
    if k + 1 < |lines| {
      TrimNewline(lines[k]);
    } else {
      assert lines[k] in lines;
      assert !HasSuffix(lines[k], "\n") by {
        if |lines[k]| > 0 { assert lines[k][|lines[k]| - 1] in lines[k]; }
      }
    }
  }

  predicate Contains(s: string, sub: string) {
    HasPrefix(s, sub) || (s != "" && Contains(s[1..], sub))
  }

  lemma {:induction false} UnlinesInjective(a: seq<string>, b: seq<string>)
    requires LineList(a) && LineList(b)
    requires Unlines(a) == Unlines(b)
    ensures a == b
  {
    SplitUnlines(a);
    SplitUnlines(b);
    assert a == (a + [""])[..|a|];
    assert b == (b + [""])[..|b|];
  }
}
