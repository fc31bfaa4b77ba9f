/**
 * The fingerprint comments of a zone file and the two readers that trust them: withFingerprints, hashBody,
 * readVerifiedContentHash and readSerialFromZoneFile (internal/zonegen/generator.go).
 */
module Stamps {
  import opened Wrappers
  import opened Strings
  import opened Records
  import opened Decimal

  predicate IsHexChar(c: char) { '0' <= c <= '9' || 'a' <= c <= 'f' }

  predicate IsHex64(s: string) { |s| == 64 && forall i :: 0 <= i < 64 ==> IsHexChar(s[i]) }

  function Zeros(n: nat): (s: string)
    ensures |s| == n && forall i :: 0 <= i < n ==> s[i] == '0'
  {
    if n == 0 then "" else "0" + Zeros(n - 1)
  }

  /** SHA-256 in lower-case hex, of which only the shape of its results is known. */
  datatype Hash = Hash(digest: string -> string) {
    function Of(text: string): (d: string)
      ensures IsHex64(d)
    {
      if IsHex64(digest(text)) then digest(text) else Zeros(64)
    }
  }

  /** H tells the texts of a set apart. */
  ghost predicate Separates(H: Hash, texts: set<string>) {
    forall x, y :: x in texts && y in texts && H.Of(x) == H.Of(y) ==> x == y
  }

  lemma FewerTexts(H: Hash, some: set<string>, known: set<string>)
    requires some <= known && Separates(H, known)
    ensures Separates(H, some)
  {
  }

  lemma {:induction false} Separated(H: Hash, texts: set<string>, x: string, y: string)
    requires Separates(H, texts) && x in texts && y in texts && H.Of(x) == H.Of(y)
    ensures x == y
  {
  }

  const CONTENT_PREFIX := "; content-hash: "
  const BODY_PREFIX := "; body-hash: "

  /** contentHashRE */
  predicate IsContentLine(l: string) { HasPrefix(l, CONTENT_PREFIX) && IsHex64(l[|CONTENT_PREFIX|..]) }

  /** bodyHashRE */
  predicate IsBodyLine(l: string) { HasPrefix(l, BODY_PREFIX) && IsHex64(l[|BODY_PREFIX|..]) }

  predicate IsStamp(l: string) { IsContentLine(l) || IsBodyLine(l) }

  predicate NotStampPart(part: string) { !IsStamp(TrimSuffix(part, "\n")) }

  /** The text of a zone file without its fingerprint comments. */
  function StripStamps(content: string): string {
    Concat(Filter(NotStampPart, SplitAfter(content, '\n')))
  }

  function Body(lines: seq<string>): string { Concat(Filter(NotStampPart, lines)) }

  lemma {:induction false} BodyStep(lines: seq<string>, i: nat)
    requires i < |lines|
    ensures Body(lines[..i + 1]) == Body(lines[..i]) + if NotStampPart(lines[i]) then lines[i] else ""
  {
    hide Concat, NotStampPart;
    FilterSnoc(NotStampPart, lines, i);
    ConcatAppend(Filter(NotStampPart, lines[..i]), [lines[i]]);
    OnePart(lines[i]);
    assert Concat(Filter(NotStampPart, lines[..i])) + "" == Concat(Filter(NotStampPart, lines[..i]));
  }

  method HashBody(H: Hash, content: string) returns (digest: string)
    ensures digest == H.Of(StripStamps(content))
  {
    hide NotStampPart, SplitAfter, Body;
    var lines := SplitAfter(content, '\n');
    var written := "";
    var i := 0;
    NoBody(lines);
    while i < |lines|
      invariant 0 <= i <= |lines|
      invariant written == Body(lines[..i])
    {
      BodyStep(lines, i);
      if NotStampPart(lines[i]) {
        written := written + lines[i];
      }
      i := i + 1;
    }
    WholeBody(content, i);
    digest := H.Of(written);
  }

  lemma NoBody(lines: seq<string>)
    ensures Body(lines[..0]) == ""
  {
  }

  lemma WholeBody(content: string, n: nat)
    requires n == |SplitAfter(content, '\n')|
    ensures Body(SplitAfter(content, '\n')[..n]) == StripStamps(content)
  {
    hide SplitAfter;
    assert SplitAfter(content, '\n')[..n] == SplitAfter(content, '\n');
  }

  // ---- stamping --------------------------------------------------------------------------------------

  predicate IsTTLLine(part: string) { HasPrefix(part, "$TTL ") }

  /** The position of the first $TTL line, or the number of parts. */
  function FirstTTL(parts: seq<string>): (i: nat)
    ensures i <= |parts|
    ensures i < |parts| ==> IsTTLLine(parts[i])
    ensures forall j :: 0 <= j < i ==> !IsTTLLine(parts[j])
  {
    if parts == [] then 0 else if IsTTLLine(parts[0]) then 0 else 1 + FirstTTL(parts[1..])
  }

  function Stamp(H: Hash, content: string, contentHash: string): string {
    var parts := SplitAfter(content, '\n');
    var i := FirstTTL(parts);
    if i == |parts| then content
    else
      Concat(parts[..i + 1])
      + Unlines([CONTENT_PREFIX + contentHash, BODY_PREFIX + H.Of(StripStamps(content))])
      + Concat(parts[i + 1..])
  }

  lemma {:induction false} TwoLines(a: string, b: string)
    ensures Unlines([a, b]) == a + "\n" + b + "\n"
  {
    assert [a, b][1..] == [b] && [b][1..] == [];
    assert Unlines([b]) == b + "\n" + "" == b + "\n";
    Assoc(a + "\n", b, "\n");
  }

  method WithFingerprints(H: Hash, content: string, contentHash: string) returns (stamped: string)
    ensures stamped == Stamp(H, content, contentHash)
  {
    var lines := SplitAfter(content, '\n');
    var i := 0;
    while i < |lines|
      invariant 0 <= i <= |lines|
      invariant i <= FirstTTL(lines)
    {
      if IsTTLLine(lines[i]) {
        assert FirstTTL(lines) == i;
        var before, after := Concat(lines[..i + 1]), Concat(lines[i + 1..]);
        var plain := before + after;
        ConcatAppend(lines[..i + 1], lines[i + 1..]);
        assert lines[..i + 1] + lines[i + 1..] == lines;
        ConcatSplitAfter(content, '\n');
        var digest := HashBody(H, plain);
        var comments := (CONTENT_PREFIX + contentHash) + "\n" + (BODY_PREFIX + digest) + "\n";
        TwoLines(CONTENT_PREFIX + contentHash, BODY_PREFIX + digest);
        stamped := before + comments + after;
        return;
      }
      i := i + 1;
    }
    return content;
  }

  /** The scan of readVerifiedContentHash: the last of each kind seen until both have been. */
  function ReadStamps(lines: seq<string>, contentHash: string, bodyHash: string): (string, string) {
    if lines == [] then (contentHash, bodyHash)
    else
      var c, b := SeenContent(lines[0], contentHash), SeenBody(lines[0], bodyHash);
      if c != "" && b != "" then (c, b) else ReadStamps(lines[1..], c, b)
  }

  function StampsOf(content: string): (string, string) { ReadStamps(Split(content, '\n'), "", "") }

  /** What a restarted process may trust: "" unless the file still hashes to its own body fingerprint. */
  function VerifiedHash(H: Hash, content: string): string {
    var (c, b) := StampsOf(content);
    if c == "" || b == "" || H.Of(StripStamps(content)) != b then "" else c
  }

  /** What one line contributes to the scan. */
  function SeenContent(line: string, contentHash: string): string {
    if IsContentLine(line) then line[|CONTENT_PREFIX|..] else contentHash
  }

  function SeenBody(line: string, bodyHash: string): string {
    if IsBodyLine(line) then line[|BODY_PREFIX|..] else bodyHash
  }

  lemma {:induction false} ReadStampsStep(lines: seq<string>, i: nat, contentHash: string, bodyHash: string)
    requires i < |lines|
    ensures var c, b := SeenContent(lines[i], contentHash), SeenBody(lines[i], bodyHash);
            ReadStamps(lines[i..], contentHash, bodyHash)
            == if c != "" && b != "" then (c, b) else ReadStamps(lines[i + 1..], c, b)
  {
    assert lines[i..][1..] == lines[i + 1..];
  }

  method ScanForStamps(lines: seq<string>) returns (contentHash: string, bodyHash: string)
    ensures (contentHash, bodyHash) == ReadStamps(lines, "", "")
  {
    hide ReadStamps, IsContentLine, IsBodyLine;
    contentHash, bodyHash := "", "";
    var i := 0;
    assert lines[0..] == lines;
    while i < |lines|
      invariant 0 <= i <= |lines|
      invariant ReadStamps(lines[i..], contentHash, bodyHash) == ReadStamps(lines, "", "")
    {
      ReadStampsStep(lines, i, contentHash, bodyHash);
      contentHash := SeenContent(lines[i], contentHash);
      bodyHash := SeenBody(lines[i], bodyHash);
      if contentHash != "" && bodyHash != "" {
        return;
      }
      i := i + 1;
    }
    NothingLeft(lines[i..], contentHash, bodyHash);
  }

  lemma NothingLeft(lines: seq<string>, contentHash: string, bodyHash: string)
    requires lines == []
    ensures ReadStamps(lines, contentHash, bodyHash) == (contentHash, bodyHash)
  {
  }

  method ReadVerifiedContentHash(H: Hash, content: string) returns (hash: string)
    ensures hash == VerifiedHash(H, content)
  {
    hide StripStamps, Split, ReadStamps;
    var contentHash, bodyHash := ScanForStamps(Split(content, '\n'));
    if contentHash == "" || bodyHash == "" {
      return "";
    }
    var got := HashBody(H, content);
    if got != bodyHash {
      return "";
    }
    return contentHash;
  }

  // ---- the round trip ----------------------------------------------------------------------------------

  /** Lines put between the first lines of a text and the rest of it. */
  lemma {:induction false} InsertedParts(lines: seq<string>, added: seq<string>, rest: string)
    requires LineList(lines) && LineList(added)
    ensures SplitAfter(Unlines(lines) + Unlines(added) + rest, '\n')
         == Terminated(lines) + Terminated(added) + SplitAfter(rest, '\n')
  {
    SplitAfterLinesThen(lines, Unlines(added) + rest);
    SplitAfterLinesThen(added, rest);
    Assoc(Unlines(lines), Unlines(added), rest);
    Assoc(Terminated(lines), Terminated(added), SplitAfter(rest, '\n'));
  }

  /** A text is its first k lines followed by what is cut from its remaining parts. */
  lemma {:induction false} CutAt(s: string, k: nat)
    requires k < |SplitAfter(s, '\n')|
    ensures |Split(s, '\n')| == |SplitAfter(s, '\n')| && LineList(Split(s, '\n')[..k])
    ensures SplitAfter(s, '\n')[..k] == Terminated(Split(s, '\n')[..k])
    ensures Concat(SplitAfter(s, '\n')[..k]) == Unlines(Split(s, '\n')[..k])
    ensures SplitAfter(Concat(SplitAfter(s, '\n')[k..]), '\n') == SplitAfter(s, '\n')[k..]
  {
    hide SplitAfter, Split, Concat, Unlines;
    var parts, lines := SplitAfter(s, '\n'), Split(s, '\n');
    SplitAfterLines(s);
    var first, rest := lines[..k], Concat(parts[k..]);
    assert parts[..k] == Terminated(first);
    forall l | l in first ensures NoNewline(l) { assert l in lines; }
    ConcatTerminated(first);
    assert s == Unlines(first) + rest by {
      ConcatSplitAfter(s, '\n');
      ConcatAppend(parts[..k], parts[k..]);
      assert parts[..k] + parts[k..] == parts;
    }
    SplitAfterLinesThen(first, rest);
    SuffixOf(parts, Terminated(first), SplitAfter(rest, '\n'));
  }

  lemma {:induction false} SuffixOf<T>(s: seq<T>, a: seq<T>, b: seq<T>)
    requires s == a + b
    ensures s[|a|..] == b
  {
  }

  lemma {:induction false} HexHasNoNewline(prefix: string, h: string)
    requires NoNewline(prefix) && IsHex64(h)
    ensures NoNewline(prefix + h)
  {
  }

  lemma {:induction false} StampLines(h: string)
    requires IsHex64(h)
    ensures IsContentLine(CONTENT_PREFIX + h) && (CONTENT_PREFIX + h)[|CONTENT_PREFIX|..] == h
    ensures IsBodyLine(BODY_PREFIX + h) && (BODY_PREFIX + h)[|BODY_PREFIX|..] == h
    ensures !IsBodyLine(CONTENT_PREFIX + h) && !IsContentLine(BODY_PREFIX + h)
  {
    assert (CONTENT_PREFIX + h)[2] == 'c' && (BODY_PREFIX + h)[2] == 'b';
    assert CONTENT_PREFIX[2] == 'c' && BODY_PREFIX[2] == 'b';
  }

  /** A text that stamping can be undone on: a $TTL line ended by a newline, and no fingerprint comment before it. */
  ghost predicate Stampable(content: string) {
    var parts := SplitAfter(content, '\n');
    && FirstTTL(parts) + 1 < |parts|
    && forall j :: 0 <= j < FirstTTL(parts) ==> NotStampPart(parts[j])
  }

  /** The two comments of a stamp. */
  function Comments(H: Hash, content: string, h: string): seq<string> {
    [CONTENT_PREFIX + h, BODY_PREFIX + H.Of(StripStamps(content))]
  }

  lemma {:induction false} CommentsAreStamps(H: Hash, content: string, h: string)
    requires IsHex64(h)
    ensures LineList(Comments(H, content, h))
    ensures forall l :: l in Comments(H, content, h) ==> IsStamp(l)
  {
    var bh := H.Of(StripStamps(content));
    HexHasNoNewline(CONTENT_PREFIX, h);
    HexHasNoNewline(BODY_PREFIX, bh);
    StampLines(h);
    StampLines(bh);
  }

  /** The position after the $TTL line. */
  function Cut(content: string): nat { FirstTTL(SplitAfter(content, '\n')) + 1 }

  lemma {:induction false} InsertAt(s: string, k: nat, added: seq<string>)
    requires k < |SplitAfter(s, '\n')| && LineList(added)
    ensures SplitAfter(Concat(SplitAfter(s, '\n')[..k]) + Unlines(added) + Concat(SplitAfter(s, '\n')[k..]), '\n')
         == SplitAfter(s, '\n')[..k] + Terminated(added) + SplitAfter(s, '\n')[k..]
  {
    CutAt(s, k);
    InsertedParts(Split(s, '\n')[..k], added, Concat(SplitAfter(s, '\n')[k..]));
  }

  lemma {:induction false} StampParts(H: Hash, content: string, h: string)
    requires Stampable(content) && IsHex64(h)
    ensures SplitAfter(Stamp(H, content, h), '\n')
         == SplitAfter(content, '\n')[..Cut(content)] + Terminated(Comments(H, content, h))
            + SplitAfter(content, '\n')[Cut(content)..]
  {
    CommentsAreStamps(H, content, h);
    InsertAt(content, Cut(content), Comments(H, content, h));
  }

  lemma {:induction false} FilterStamps(parts: seq<string>, added: seq<string>, rest: seq<string>)
    requires forall l :: l in added ==> IsStamp(l)
    ensures Filter(NotStampPart, parts + Terminated(added) + rest) == Filter(NotStampPart, parts + rest)
  {
    FilterAppend(NotStampPart, parts + Terminated(added), rest);
    FilterAppend(NotStampPart, parts, Terminated(added));
    FilterAppend(NotStampPart, parts, rest);
    AllStamps(added);
    assert Filter(NotStampPart, parts) + [] == Filter(NotStampPart, parts);
  }

  lemma {:induction false} AllStamps(added: seq<string>)
    requires forall l :: l in added ==> IsStamp(l)
    ensures Filter(NotStampPart, Terminated(added)) == []
  {
    if added != [] {
      TrimNewline(added[0]);
      assert Terminated(added)[1..] == Terminated(added[1..]);
      AllStamps(added[1..]);
    }
  }

  /** Stamping changes only the fingerprint comments: the body, and so its hash, is the same before and after. */
  lemma {:induction false} StampKeepsBody(H: Hash, content: string, h: string)
    requires Stampable(content) && IsHex64(h)
    ensures StripStamps(Stamp(H, content, h)) == StripStamps(content)
  {
    StampParts(H, content, h);
    CommentsAreStamps(H, content, h);
    FilterInserted(SplitAfter(content, '\n'), Cut(content), Comments(H, content, h));
  }

  lemma {:induction false} FilterInserted(parts: seq<string>, k: nat, added: seq<string>)
    requires k <= |parts| && forall l :: l in added ==> IsStamp(l)
    ensures Filter(NotStampPart, parts[..k] + Terminated(added) + parts[k..]) == Filter(NotStampPart, parts)
  {
    FilterStamps(parts[..k], added, parts[k..]);
    assert parts[..k] + parts[k..] == parts;
  }

  lemma {:induction false} ReadStampsSkips(lines: seq<string>, i: nat)
    requires i <= |lines|
    requires forall j :: 0 <= j < i ==> !IsStamp(lines[j])
    ensures ReadStamps(lines, "", "") == ReadStamps(lines[i..], "", "")
    decreases i
  {
    if i > 0 {
      ReadStampsSkips(lines[1..], i - 1);
      assert lines[1..][i - 1..] == lines[i..];
    }
  }

  lemma {:induction false} ReadStampsFinds(lines: seq<string>, i: nat, h: string, bh: string)
    requires i + 1 < |lines| && IsHex64(h) && IsHex64(bh)
    requires forall j :: 0 <= j < i ==> !IsStamp(lines[j])
    requires lines[i] == CONTENT_PREFIX + h && lines[i + 1] == BODY_PREFIX + bh
    ensures ReadStamps(lines, "", "") == (h, bh)
  {
    ReadStampsSkips(lines, i);
    StampLines(h);
    StampLines(bh);
    var rest := lines[i..];
    assert rest[0] == lines[i] && rest[1..][0] == lines[i + 1];
    assert h != "" && bh != "";
    assert ReadStamps(rest, "", "") == ReadStamps(rest[1..], h, "");
  }

  lemma {:induction false} NotAStamp(l: string)
    requires l != "" && l[0] == '$'
    ensures !IsStamp(l)
  {
    assert CONTENT_PREFIX[0] == ';' && BODY_PREFIX[0] == ';';
  }

  lemma {:induction false} StampedLines(H: Hash, content: string, h: string, j: nat)
    requires Stampable(content) && IsHex64(h)
    requires j < Cut(content) + 2
    ensures Cut(content) + 1 < |Split(Stamp(H, content, h), '\n')|
    ensures j < Cut(content) ==> !IsStamp(Split(Stamp(H, content, h), '\n')[j])
    ensures j >= Cut(content) ==> Split(Stamp(H, content, h), '\n')[j] == Comments(H, content, h)[j - Cut(content)]
  {
    var k := Cut(content);
    StampParts(H, content, h);
    SplitAfterTrimmed(Stamp(H, content, h), j);
    StampedPart(SplitAfter(content, '\n'), k, Comments(H, content, h), j);
  }

  lemma {:induction false} StampedPart(parts: seq<string>, k: nat, added: seq<string>, j: nat)
    requires k <= |parts| && |added| == 2 && j < k + 2
    requires k == FirstTTL(parts) + 1
    requires forall i :: 0 <= i < k - 1 ==> NotStampPart(parts[i])
    ensures var all := parts[..k] + Terminated(added) + parts[k..];
            && (j < k ==> !IsStamp(TrimSuffix(all[j], "\n")))
            && (j >= k ==> TrimSuffix(all[j], "\n") == added[j - k])
  {
    IndexInserted(parts[..k], Terminated(added), parts[k..], j);
    if j == k - 1 {
      assert parts[j][0] == '$';
      NotAStamp(TrimSuffix(parts[j], "\n"));
    } else if j >= k {
      TrimNewline(added[j - k]);
    }
  }

  lemma {:induction false} IndexInserted<T>(a: seq<T>, b: seq<T>, c: seq<T>, j: nat)
    requires j < |a| + |b|
    ensures (a + b + c)[j] == if j < |a| then a[j] else b[j - |a|]
  {
  }

  lemma {:induction false} StampsReadBack(H: Hash, content: string, h: string)
    requires Stampable(content) && IsHex64(h)
    ensures StampsOf(Stamp(H, content, h)) == (h, H.Of(StripStamps(content)))
  {
    hide Stamp, StripStamps, Stampable, IsStamp, Split, ReadStamps;
    var k := Cut(content);
    StampedLines(H, content, h, k);
    StampedLines(H, content, h, k + 1);
    forall j | 0 <= j < k ensures !IsStamp(Split(Stamp(H, content, h), '\n')[j]) {
      StampedLines(H, content, h, j);
    }
    ReadStampsFinds(Split(Stamp(H, content, h), '\n'), k, h, H.Of(StripStamps(content)));
  }

  /** Reading a stamped file back gives the fingerprint it was stamped with. */
  lemma {:induction false} StampRoundTrip(H: Hash, content: string, h: string)
    requires Stampable(content) && IsHex64(h)
    ensures VerifiedHash(H, Stamp(H, content, h)) == h
    ensures H.Of(StripStamps(Stamp(H, content, h))) == H.Of(StripStamps(content))
  {
    StampsReadBack(H, content, h);
    StampKeepsBody(H, content, h);
    assert h != "" && H.Of(StripStamps(content)) != "";
  }

  /**
   * A file whose two fingerprint comments are intact but whose body is not the one they were computed from is not
   * trusted, and one that is trusted has that body: exactly, as far as the hash tells the two bodies apart.
   */
  lemma {:induction false} TrustedExactlyWhenBodyIntact(H: Hash, file: string, h: string, body: string)
    requires StampsOf(file) == (h, H.Of(body)) && h != ""
    requires H.Of(StripStamps(file)) == H.Of(body) ==> StripStamps(file) == body
    ensures VerifiedHash(H, file) == h <==> StripStamps(file) == body
    ensures VerifiedHash(H, file) == "" <==> StripStamps(file) != body
  {
    assert IsHex64(H.Of(body));
  }

  // ---- the serial ----------------------------------------------------------------------------------------

  predicate IsSpace(c: char) { c == ' ' || c == '\t' || c == '\n' || c == '\r' || c == 12 as char }

  function SkipSpace(s: string): (t: string)
    ensures |t| <= |s|
    ensures t != "" ==> !IsSpace(t[0])
  {
    if s != "" && IsSpace(s[0]) then SkipSpace(s[1..]) else s
  }

  /** serialRegex: optional space, ten digits, optional space, a semicolon, optional space, the word serial. */
  function MatchSerial(line: string): Option<string> {
    var t := SkipSpace(line);
    if |t| >= 10 && AllDigits(t[..10]) then
      var u := SkipSpace(t[10..]);
      if HasPrefix(u, ";") && HasPrefix(SkipSpace(u[1..]), "serial") then Some(t[..10]) else None
    else None
  }

  /** bufio.Scanner's lines: no empty line after a final newline, and no carriage return before one. */
  function ScanLines(content: string): seq<string> {
    var lines := Split(content, '\n');
    var kept := if lines[|lines| - 1] == "" then lines[..|lines| - 1] else lines;
    Map((l: string) => TrimSuffix(l, "\r"), kept)
  }

  function SerialIn(lines: seq<string>, inSOA: bool): Option<nat> {
    if lines == [] then None
    else if Contains(lines[0], "IN SOA") then SerialIn(lines[1..], true)
    else if !inSOA then SerialIn(lines[1..], false)
    else if MatchSerial(lines[0]).Some? then ParseUint32(MatchSerial(lines[0]).value)
    else if Contains(lines[0], ")") then None
    else SerialIn(lines[1..], true)
  }

  function SerialOf(content: string): Option<nat> { SerialIn(ScanLines(content), false) }

  method ReadSerialFromZoneFile(content: string) returns (serial: Option<nat>)
    ensures serial == SerialOf(content)
  {
    var lines := ScanLines(content);
    var inSOA := false;
    var i := 0;
    assert lines[0..] == lines;
    while i < |lines|
      invariant 0 <= i <= |lines|
      invariant SerialIn(lines[i..], inSOA) == SerialOf(content)
    {
      var line := lines[i];
      assert lines[i..][1..] == lines[i + 1..];
      i := i + 1;
      if Contains(line, "IN SOA") {
        inSOA := true;
        continue;
      }
      if inSOA {
        var m := MatchSerial(line);
        if m.Some? {
          return ParseUint32(m.value);
        }
        if Contains(line, ")") {
          return None;
        }
      }
    }
    return None;
  }
}
