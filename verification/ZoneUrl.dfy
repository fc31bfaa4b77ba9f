/** The path a request for a zone file carries, when its name is put into a URL as it is (net/url and net/http under fetch.go). */
module ZoneUrl {
  import opened Wrappers
  import opened Strings

  predicate IsHexDigit(c: char) { '0' <= c <= '9' || 'a' <= c <= 'f' || 'A' <= c <= 'F' }

  function HexValue(c: char): (d: nat)
    requires IsHexDigit(c)
    ensures d < 16
  {
    if '0' <= c <= '9' then c as int - '0' as int
    else if 'a' <= c <= 'f' then c as int - 'a' as int + 10
    else c as int - 'A' as int + 10
  }

  /** url.PathUnescape: None on an escape without two hex digits. */
  function Unescape(s: string): Option<string> {
    if s == "" then Some("")
    else if s[0] != '%' then
      var rest := Unescape(s[1..]);
      if rest.Some? then Some([s[0]] + rest.value) else None
    else if |s| < 3 || !IsHexDigit(s[1]) || !IsHexDigit(s[2]) then None
    else
      var rest := Unescape(s[3..]);
      if rest.Some? then Some([(16 * HexValue(s[1]) + HexValue(s[2])) as char] + rest.value) else None
  }

  /** strings.Cut */
  function Cut(s: string, sep: char): (string, string) {
    if sep in s then (s[..Index(s, sep)], s[Index(s, sep) + 1..]) else (s, "")
  }

  predicate IsControl(c: char) { c < ' ' || c == 0x7f as char }

  /**
   * What the server sees for a name that ends the URL as it is written: the fragment is cut off and then the query, and
   * what remains is unescaped. None where the request is refused: by the URL parser for a control character or a bad
   * escape, by the server for a space in the query.
   */
  function Requested(name: string): Option<string> {
    var (url, fragment) := Cut(name, '#');
    var (path, query) := Cut(url, '?');
    if (exists c :: c in url && IsControl(c)) || ' ' in query || Unescape(fragment).None? then None else Unescape(path)
  }

  /** Nothing in the name has a meaning in a URL. */
  predicate PlainInUrl(name: string) {
    '#' !in name && '?' !in name && '%' !in name && forall c :: c in name ==> !IsControl(c)
  }

  lemma {:induction false} UnescapeShortens(s: string)
    requires Unescape(s).Some?
    ensures |Unescape(s).value| <= |s| && (Unescape(s).value == s <==> '%' !in s)
    ensures '%' in s ==> |Unescape(s).value| < |s|
  {
    if s != "" {
      if s[0] == '%' {
        UnescapeShortens(s[3..]);
      } else {
        UnescapeShortens(s[1..]);
        assert s == [s[0]] + s[1..];
      }
    }
  }

  lemma {:induction false} UnescapePlain(s: string)
    requires '%' !in s
    ensures Unescape(s) == Some(s)
  {
    if s != "" {
      assert s == [s[0]] + s[1..];
      UnescapePlain(s[1..]);
    }
  }

  lemma {:induction false} CutFirst(a: string, sep: char, b: string)
    requires sep !in a
    ensures Cut(a + [sep] + b, sep) == (a, b) && Cut(a, sep) == (a, "")
  {
    IndexAppend(a, sep, b);
    var s := a + [sep] + b;
    assert s[|a|] == sep && s[..|a|] == a && s[|a| + 1..] == b;
  }

  lemma {:induction false} CutShortens(s: string, sep: char)
    ensures |Cut(s, sep).0| <= |s| && (sep in s ==> |Cut(s, sep).0| < |s|) && (sep !in s ==> Cut(s, sep).0 == s)
  {
  }

  /** A file is asked for by its own name exactly when nothing in the name has a meaning in a URL. */
  lemma {:induction false} AsksForItselfExactlyWhen(name: string)
    ensures Requested(name) == Some(name) <==> PlainInUrl(name)
  {
    hide Cut, Unescape, IsControl;
    CutShortens(name, '#');
    CutShortens(Cut(name, '#').0, '?');
    if Requested(name) == Some(name) {
      UnescapeShortens(Cut(Cut(name, '#').0, '?').0);
    }
    if PlainInUrl(name) {
      CutFirst(name, '#', "");
      CutFirst(name, '?', "");
      UnescapePlain("");
      UnescapePlain(name);
    }
  }

  /** A name with a question mark or a hash asks for what comes before it. */
  lemma {:induction false} AsksForPrefix(a: string, b: string)
    requires PlainInUrl(a) && PlainInUrl(b) && ' ' !in b
    ensures Requested(a + "?" + b) == Some(a) && Requested(a + "#" + b) == Some(a)
  {
    hide Cut, Unescape, IsControl;
    UnescapePlain(a);
    UnescapePlain(b);
    UnescapePlain("");
    CutFirst(a, '?', b);
    CutFirst(a, '#', b);
    CutFirst(a + "?" + b, '#', "");
    assert !IsControl('?') by { MarkIsPlain(); }
  }

  lemma MarkIsPlain()
    ensures !IsControl('?')
  {
  }
}
