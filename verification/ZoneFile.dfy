/** What the readers of Stamps find in the files that ZoneText renders. */
module ZoneFile {
  import opened Wrappers
  import opened Strings
  import opened Decimal
  import opened Records
  import opened ZoneText
  import opened Stamps

  /** Configuration values that stay on their line. */
  predicate CleanConfig(cfg: ZoneConfig) {
    NoNewline(cfg.origin) && NoNewline(cfg.primaryNS) && NoNewline(cfg.adminEmail) && NoNewline(cfg.primaryNSIP)
  }

  /** The file published for a record set: rendered, then stamped. */
  function Published(H: Hash, cfg: ZoneConfig, serial: nat, records: seq<IPRecord>, h: string): string {
    Stamp(H, Plain(cfg, serial, records), h)
  }

  lemma DigitsHaveNoNewline(s: string)
    requires forall i :: 0 <= i < |s| ==> IsDigit(s[i])
    ensures NoNewline(s)
  {
  }

  lemma SOALineHasNoNewline(number: string, what: string)
    requires NoNewline(number) && NoNewline(what)
    ensures NoNewline(SOALine(number, what))
  {
    NoNewlineConcat("    ", number);
    NoNewlineConcat("    " + number, " ; ");
    NoNewlineConcat("    " + number + " ; ", what);
  }

  lemma PaddedHasNoNewline(n: nat)
    ensures NoNewline(Padded(n))
  {
    DigitsHaveNoNewline(Dec(n));
    NoNewlineConcat(Dec(n), Spaces(if |Dec(n)| < 9 then 9 - |Dec(n)| else 0));
  }

  lemma TextLinesHaveNoNewline(cfg: ZoneConfig)
    requires CleanConfig(cfg)
    ensures NoNewline("$ORIGIN " + EnsureTrailingDot(cfg.origin))
    ensures NoNewline("@ IN SOA " + cfg.primaryNS + " " + cfg.adminEmail + " (")
    ensures NoNewline("@ IN NS " + cfg.primaryNS)
  {
    NoNewlineConcat(cfg.origin, ".");
    NoNewlineConcat("$ORIGIN ", EnsureTrailingDot(cfg.origin));
    NoNewlineConcat("@ IN SOA ", cfg.primaryNS);
    NoNewlineConcat("@ IN SOA " + cfg.primaryNS, " ");
    NoNewlineConcat("@ IN SOA " + cfg.primaryNS + " ", cfg.adminEmail);
    NoNewlineConcat("@ IN SOA " + cfg.primaryNS + " " + cfg.adminEmail, " (");
    NoNewlineConcat("@ IN NS ", cfg.primaryNS);
  }

  lemma HeaderHasNoNewline(cfg: ZoneConfig, serial: nat)
    requires CleanConfig(cfg)
    ensures LineList(HeaderLines(cfg, serial))
  {
    TextLinesHaveNoNewline(cfg);
    DigitsHaveNoNewline(Dec(cfg.ttl));
    NoNewlineConcat("$TTL ", Dec(cfg.ttl));
    DigitsHaveNoNewline(Dec(serial));
    NoNewlineConcat(Dec(serial), "  ");
    SOALineHasNoNewline(Dec(serial) + "  ", "serial");
    PaddedHasNoNewline(cfg.soa.refresh);
    PaddedHasNoNewline(cfg.soa.retry);
    PaddedHasNoNewline(cfg.soa.expire);
    PaddedHasNoNewline(cfg.soa.minimum);
    SOALineHasNoNewline(Padded(cfg.soa.refresh), "refresh");
    SOALineHasNoNewline(Padded(cfg.soa.retry), "retry");
    SOALineHasNoNewline(Padded(cfg.soa.expire), "expire");
    SOALineHasNoNewline(Padded(cfg.soa.minimum), "minimum");
  }

  lemma {:induction false} PlainParts(cfg: ZoneConfig, serial: nat, records: seq<IPRecord>)
    requires CleanConfig(cfg)
    ensures exists rest :: Plain(cfg, serial, records) == Unlines(HeaderLines(cfg, serial)) + rest
  {
    var sorted := RecordOrder.Sort(records);
    UnlinesAppend(HeaderLines(cfg, serial), NSAddressLines(cfg, sorted) + RecordLines(cfg, sorted));
    Assoc(HeaderLines(cfg, serial), NSAddressLines(cfg, sorted), RecordLines(cfg, sorted));
  }

  lemma {:induction false} HeaderStart(cfg: ZoneConfig, serial: nat)
    ensures var h := HeaderLines(cfg, serial);
            && |h| == 12 && !IsTTLLine(h[0] + "\n") && NotStampPart(h[0] + "\n") && IsTTLLine(h[1] + "\n")
  {
    var h := HeaderLines(cfg, serial);
    TrimNewline(h[0]);
    assert h[0][0] == '$' && h[0][1] == 'O' && h[1][..5] == "$TTL ";
    assert "$TTL "[1] == 'T';
    NotAStamp(h[0]);
  }

  lemma {:induction false} SecondIsTTL(parts: seq<string>)
    requires |parts| >= 2 && !IsTTLLine(parts[0]) && IsTTLLine(parts[1])
    ensures FirstTTL(parts) == 1
  {
  }

  /** Every rendered zone can be stamped: its second line is the $TTL line, and the first is no comment. */
  lemma {:induction false} RenderedIsStampable(cfg: ZoneConfig, serial: nat, records: seq<IPRecord>)
    requires CleanConfig(cfg)
    ensures Stampable(Plain(cfg, serial, records))
    ensures FirstTTL(SplitAfter(Plain(cfg, serial, records), '\n')) == 1
  {
    hide Plain, HeaderLines, SplitAfter, Unlines, CleanConfig;
    PlainParts(cfg, serial, records);
    var h := HeaderLines(cfg, serial);
    var rest :| Plain(cfg, serial, records) == Unlines(h) + rest;
    HeaderHasNoNewline(cfg, serial);
    HeaderStart(cfg, serial);
    SplitAfterLinesThen(h, rest);
    var parts := SplitAfter(Plain(cfg, serial, records), '\n');
    assert parts[0] == Terminated(h)[0] == h[0] + "\n" && parts[1] == Terminated(h)[1] == h[1] + "\n";
    SecondIsTTL(parts);
  }

  // ---- the serial --------------------------------------------------------------------------------------

  predicate AllSpaces(s: string) { forall i :: 0 <= i < |s| ==> s[i] == ' ' }

  lemma {:induction false} SkipsSpaces(sp: string, x: string)
    requires AllSpaces(sp) && x != "" && !IsSpace(x[0])
    ensures SkipSpace(sp + x) == x
  {
    if sp == "" {
      assert sp + x == x;
    } else {
      SkipsSpaces(sp[1..], x);
      assert (sp + x)[1..] == sp[1..] + x;
    }
  }

  /** Only ten digits, a semicolon and the word serial are taken for the serial. */
  lemma {:induction false} MatchesTenDigits(indent: string, digits: string, gap: string, word: string)
    requires AllSpaces(indent) && AllDigits(digits) && AllSpaces(gap) && gap != ""
    requires word != "" && !IsSpace(word[0])
    ensures MatchSerial(indent + digits + gap + "; " + word)
         == if |digits| == 10 && HasPrefix(word, "serial") then Some(digits) else None
  {
    var tail := "; " + word;
    var t := digits + gap + tail;
    assert indent + digits + gap + "; " + word == indent + t;
    assert t[0] == digits[0];
    SkipsSpaces(indent, t);
    if |digits| == 10 {
      assert t[..10] == digits && t[10..] == gap + tail;
      SkipsSpaces(gap, tail);
      assert tail[1..] == " " + word;
      SkipsSpaces(" ", word);
    } else if |digits| < 10 {
      if |t| >= 10 {
        assert t[..10][|digits|] == gap[0];
      }
    } else {
      assert t[10] == digits[10];
      assert t[10..][0] == digits[10];
    }
  }

  lemma {:induction false} MatchesSOALine(digits: string, pad: string, what: string)
    requires AllDigits(digits) && AllSpaces(pad) && what != "" && !IsSpace(what[0])
    ensures MatchSerial(SOALine(digits + pad, what))
         == if |digits| == 10 && HasPrefix(what, "serial") then Some(digits) else None
  {
    MatchesTenDigits("    ", digits, pad + " ", what);
    assert "    " + digits + (pad + " ") + "; " + what == SOALine(digits + pad, what);
  }

  lemma {:induction false} ContainsIn(s: string, t: string, u: string)
    ensures Contains(s + t + u, t)
  {
    if s == "" {
      assert s + t + u == t + u;
      assert (t + u)[..|t|] == t;
    } else {
      ContainsIn(s[1..], t, u);
      assert (s + t + u)[1..] == s[1..] + t + u;
    }
  }

  lemma {:induction false} ContainsNone(s: string, sub: string)
    requires sub != "" && sub[0] !in s
    ensures !Contains(s, sub)
  {
    if s != "" {
      ContainsNone(s[1..], sub);
      assert s[0] in s && forall c :: c in s[1..] ==> c in s;
    }
  }

  /** A line that is neither the serial nor the end of the SOA record. */
  predicate Passable(line: string) { MatchSerial(line).None? && !Contains(line, ")") }

  /** Passing over such a line leaves the scan where it was, inside the SOA record or not yet. */
  lemma {:induction false} PassOver(lines: seq<string>, inSOA: bool)
    requires lines != [] && Passable(lines[0])
    ensures SerialIn(lines, inSOA) == SerialIn(lines[1..], true) || SerialIn(lines, inSOA) == SerialIn(lines[1..], inSOA)
  {
  }

  /** From the line of the SOA record on, only the serial's own line decides. */
  lemma {:induction false} FromSOALine(lines: seq<string>, inSOA: bool, serial: nat)
    requires |lines| >= 7 && serial < 0x1_0000_0000
    requires Contains(lines[0], "IN SOA")
    requires lines[1] == SOALine(Dec(serial) + "  ", "serial")
    requires forall k :: 2 <= k < 6 ==> Passable(lines[k])
    requires MatchSerial(lines[6]).None? && Contains(lines[6], ")") && !Contains(lines[6], "IN SOA")
    requires !Contains(lines[1], "IN SOA") && !Contains(lines[1], ")")
    ensures SerialIn(lines, inSOA) == if serial >= 1_000_000_000 then Some(serial) else None
  {
    TenDigits(serial);
    ValueDec(serial);
    MatchesSOALine(Dec(serial), "  ", "serial");
    assert HasPrefix("serial", "serial");
    if serial < 1_000_000_000 {
      PassOver(lines[2..], true);
      assert lines[2..][1..] == lines[3..];
      PassOver(lines[3..], true);
      assert lines[3..][1..] == lines[4..];
      PassOver(lines[4..], true);
      assert lines[4..][1..] == lines[5..];
      PassOver(lines[5..], true);
      assert lines[5..][1..] == lines[6..];
    }
  }

  // ---- the lines of a published file -----------------------------------------------------------------------

  function PublishedLines(H: Hash, cfg: ZoneConfig, serial: nat, records: seq<IPRecord>, h: string): seq<string> {
    var all := ZoneLines(cfg, serial, RecordOrder.Sort(records));
    all[..2] + Comments(H, Plain(cfg, serial, records), h) + all[2..]
  }

  lemma {:induction false} CutLines(lines: seq<string>, k: nat)
    requires k <= |lines| && LineList(lines[..k])
    ensures var parts := SplitAfter(Unlines(lines), '\n');
            k <= |parts| && Concat(parts[..k]) == Unlines(lines[..k]) && Concat(parts[k..]) == Unlines(lines[k..])
  {
    var first, tail := lines[..k], Unlines(lines[k..]);
    assert first + lines[k..] == lines;
    UnlinesAppend(first, lines[k..]);
    SplitAfterLinesThen(first, tail);
    ConcatTerminated(first);
    ConcatSplitAfter(tail, '\n');
    var parts := SplitAfter(Unlines(lines), '\n');
    assert parts[..k] == Terminated(first) && parts[k..] == SplitAfter(tail, '\n');
  }

  /** A published file is its lines: the header, with the two comments after its $TTL line, and the records. */
  lemma {:induction false} PublishedIsItsLines(H: Hash, cfg: ZoneConfig, serial: nat, records: seq<IPRecord>, h: string)
    requires CleanConfig(cfg)
    ensures Published(H, cfg, serial, records, h) == Unlines(PublishedLines(H, cfg, serial, records, h))
  {
    var content := Plain(cfg, serial, records);
    var all := ZoneLines(cfg, serial, RecordOrder.Sort(records));
    RenderedIsStampable(cfg, serial, records);
    HeaderHasNoNewline(cfg, serial);
    forall l | l in all[..2] ensures NoNewline(l) { assert l in HeaderLines(cfg, serial); }
    CutLines(all, 2);
    var comments := Comments(H, content, h);
    UnlinesAppend(all[..2] + comments, all[2..]);
    UnlinesAppend(all[..2], comments);
  }

  /** Its third and fourth lines are the comments: the fingerprint given, and the hash of the text without comments. */
  lemma {:induction false} CommentsLook(H: Hash, cfg: ZoneConfig, serial: nat, records: seq<IPRecord>, h: string)
    requires CleanConfig(cfg)
    ensures var lines := PublishedLines(H, cfg, serial, records, h);
            && Published(H, cfg, serial, records, h) == Unlines(lines) && |lines| >= 4
            && lines[2] == "; content-hash: " + h
            && lines[3] == "; body-hash: " + H.Of(StripStamps(Plain(cfg, serial, records)))
  {
    hide StripStamps, Plain, Published, CleanConfig;
    PublishedIsItsLines(H, cfg, serial, records, h);
    assert |ZoneLines(cfg, serial, RecordOrder.Sort(records))| >= |HeaderLines(cfg, serial)| == 12;
  }

  lemma {:induction false} ScannedLine(lines: seq<string>, rest: seq<string>, k: nat)
    requires LineList(lines) && k < |lines|
    ensures var scanned := ScanLines(Unlines(lines + rest));
            |scanned| >= |lines| && scanned[k] == TrimSuffix(lines[k], "\r")
  {
    UnlinesAppend(lines, rest);
    SplitLinesThen(lines, Unlines(rest));
  }

  predicate EndsPlainly(l: string) { l != "" && l[|l| - 1] != '\r' }

  lemma {:induction false} DigitLines(n: nat, pad: string, what: string)
    requires AllSpaces(pad) && what != "" && (forall i :: 0 <= i < |what| ==> 'a' <= what[i] <= 'z')
    ensures var l := SOALine(Dec(n) + pad, what); ')' !in l && 'I' !in l && EndsPlainly(l)
  {
    var l := SOALine(Dec(n) + pad, what);
    assert l[|l| - 1] == what[|what| - 1];
    forall c | c in l ensures c == ' ' || c == ';' || IsDigit(c) || 'a' <= c <= 'z' {
      var i :| 0 <= i < |l| && l[i] == c;
      assert l == "    " + Dec(n) + pad + " ; " + what by { Assoc("    ", Dec(n), pad); }
    }
  }

  lemma {:induction false} TimerIsPassable(n: nat, what: string)
    requires what == "refresh" || what == "retry" || what == "expire" || what == "minimum"
    ensures Passable(SOALine(Padded(n), what)) && EndsPlainly(SOALine(Padded(n), what))
  {
    var pad := Spaces(if |Dec(n)| < 9 then 9 - |Dec(n)| else 0);
    MatchesSOALine(Dec(n), pad, what);
    DigitLines(n, pad, what);
    ContainsNone(SOALine(Padded(n), what), ")");
  }

  lemma {:induction false} NotDigitFirst(l: string)
    requires l != "" && !IsSpace(l[0]) && !IsDigit(l[0])
    ensures MatchSerial(l).None?
  {
    if |l| >= 10 { assert l[..10][0] == l[0]; }
  }

  lemma {:induction false} TTLIsPassable(cfg: ZoneConfig)
    ensures Passable("$TTL " + Dec(cfg.ttl)) && EndsPlainly("$TTL " + Dec(cfg.ttl))
  {
    var ttl := "$TTL " + Dec(cfg.ttl);
    NotDigitFirst(ttl);
    ContainsNone(ttl, ")");
    assert ttl[|ttl| - 1] == Dec(cfg.ttl)[|Dec(cfg.ttl)| - 1];
  }

  lemma {:induction false} CommentIsPassable(prefix: string, hex: string)
    requires prefix == CONTENT_PREFIX || prefix == BODY_PREFIX
    requires IsHex64(hex)
    ensures Passable(prefix + hex) && EndsPlainly(prefix + hex)
  {
    var c := prefix + hex;
    assert c[0] == prefix[0] == ';' && c[|c| - 1] == hex[63];
    NotDigitFirst(c);
    ContainsNone(c, ")");
  }

  lemma {:induction false} ContainsMore(s: string, t: string, sub: string)
    requires Contains(s, sub)
    ensures Contains(s + t, sub)
  {
    if HasPrefix(s, sub) {
      assert (s + t)[..|sub|] == sub;
    } else {
      ContainsMore(s[1..], t, sub);
      assert (s + t)[1..] == s[1..] + t;
    }
  }

  lemma {:induction false} SOALineIsFound(cfg: ZoneConfig, serial: nat)
    ensures var soa := HeaderLines(cfg, serial)[2]; Contains(soa, "IN SOA") && EndsPlainly(soa)
  {
    ContainsIn("@ ", "IN SOA", " ");
    assert "@ " + "IN SOA" + " " == "@ IN SOA ";
    var a := "@ IN SOA " + cfg.primaryNS;
    ContainsMore("@ IN SOA ", cfg.primaryNS, "IN SOA");
    ContainsMore(a, " ", "IN SOA");
    ContainsMore(a + " ", cfg.adminEmail, "IN SOA");
    ContainsMore(a + " " + cfg.adminEmail, " (", "IN SOA");
  }

  /** What the serial scan needs to know of the k-th line of a published file. */
  ghost predicate HeaderFact(serial: nat, k: nat, line: string) {
    && (k in {1, 2, 3, 6, 7, 8, 9} ==> Passable(line))
    && (k == 4 ==> Contains(line, "IN SOA"))
    && (k == 5 ==> line == SOALine(Dec(serial) + "  ", "serial"))
    && (k == 10 ==> line == ")")
  }

  lemma {:induction false} ScanHeader(lines: seq<string>, serial: nat)
    requires |lines| >= 11 && serial < 0x1_0000_0000
    requires forall k: nat :: 1 <= k <= 10 ==> HeaderFact(serial, k, lines[k])
    ensures SerialIn(lines, false) == if serial >= 1_000_000_000 then Some(serial) else None
  {
    var soa := lines[4..];
    forall k: nat | 2 <= k < 6 ensures Passable(soa[k]) {
      assert HeaderFact(serial, k + 4, lines[k + 4]);
    }
    assert soa[0] == lines[4] && soa[1] == lines[5] && soa[6] == lines[10];
    assert HeaderFact(serial, 4, lines[4]) && HeaderFact(serial, 5, lines[5]) && HeaderFact(serial, 10, lines[10]);
    NotDigitFirst(")");
    ContainsNone(")", "IN SOA");
    DigitLines(serial, "  ", "serial");
    ContainsNone(soa[1], ")");
    ContainsNone(soa[1], "IN SOA");
    FromSOALine(soa, false, serial);
    FromSOALine(soa, true, serial);
    ScanToSOA(lines, serial);
  }

  lemma {:induction false} ScanToSOA(lines: seq<string>, serial: nat)
    requires |lines| >= 11
    requires Passable(lines[1]) && Passable(lines[2]) && Passable(lines[3])
    requires SerialIn(lines[4..], false) == SerialIn(lines[4..], true)
    ensures SerialIn(lines, false) == SerialIn(lines[4..], true)
  {
    assert lines[1..][1..] == lines[2..] && lines[2..][1..] == lines[3..] && lines[3..][1..] == lines[4..];
    PassOver(lines[3..], false);
    PassOver(lines[3..], true);
    PassOver(lines[2..], false);
    PassOver(lines[2..], true);
    PassOver(lines[1..], false);
    PassOver(lines[1..], true);
  }

  lemma {:induction false} InsertedIndex(header: seq<string>, comments: seq<string>, tail: seq<string>, k: nat)
    requires |header| == 12 && |comments| == 2 && k < 14
    ensures var all := header + tail;
            (all[..2] + comments + all[2..])[k]
            == if k < 2 then header[k] else if k < 4 then comments[k - 2] else header[k - 2]
  {
  }

  lemma {:induction false} PublishedIndex(H: Hash, cfg: ZoneConfig, serial: nat, records: seq<IPRecord>, h: string, k: nat)
    requires k < 14
    ensures |PublishedLines(H, cfg, serial, records, h)| >= 14
    ensures PublishedLines(H, cfg, serial, records, h)[k]
         == if k < 2 then HeaderLines(cfg, serial)[k]
            else if k < 4 then Comments(H, Plain(cfg, serial, records), h)[k - 2]
            else HeaderLines(cfg, serial)[k - 2]
  {
    var sorted := RecordOrder.Sort(records);
    Assoc(HeaderLines(cfg, serial), NSAddressLines(cfg, sorted), RecordLines(cfg, sorted));
    InsertedIndex(HeaderLines(cfg, serial), Comments(H, Plain(cfg, serial, records), h),
                  NSAddressLines(cfg, sorted) + RecordLines(cfg, sorted), k);
  }

  lemma {:induction false} HeaderFacts(H: Hash, cfg: ZoneConfig, serial: nat, records: seq<IPRecord>, h: string, k: nat)
    requires IsHex64(h) && 1 <= k <= 10
    ensures |PublishedLines(H, cfg, serial, records, h)| >= 14
    ensures var line := PublishedLines(H, cfg, serial, records, h)[k];
            EndsPlainly(line) && HeaderFact(serial, k, line)
  {
    hide *;
    PublishedIndex(H, cfg, serial, records, h, k);
    if k == 1 {
      TTLFact(cfg, serial);
    } else if k < 4 {
      CommentFact(H, Plain(cfg, serial, records), serial, h, k);
    } else {
      HeaderTail(cfg, serial, k - 2);
    }
  }

  lemma {:induction false} TTLFact(cfg: ZoneConfig, serial: nat)
    ensures EndsPlainly(HeaderLines(cfg, serial)[1]) && HeaderFact(serial, 1, HeaderLines(cfg, serial)[1])
  {
    TTLIsPassable(cfg);
  }

  lemma {:induction false} CommentFact(H: Hash, body: string, serial: nat, h: string, k: nat)
    requires IsHex64(h) && 2 <= k < 4
    ensures EndsPlainly(Comments(H, body, h)[k - 2]) && HeaderFact(serial, k, Comments(H, body, h)[k - 2])
  {
    CommentIsPassable(CONTENT_PREFIX, h);
    CommentIsPassable(BODY_PREFIX, H.Of(StripStamps(body)));
  }

  lemma {:induction false} HeaderTail(cfg: ZoneConfig, serial: nat, j: nat)
    requires 2 <= j <= 8
    ensures EndsPlainly(HeaderLines(cfg, serial)[j]) && HeaderFact(serial, j + 2, HeaderLines(cfg, serial)[j])
  {
    if j == 2 {
      SOALineIsFound(cfg, serial);
    } else if j == 3 {
      DigitLines(serial, "  ", "serial");
    } else if j == 4 {
      TimerIsPassable(cfg.soa.refresh, "refresh");
    } else if j == 5 {
      TimerIsPassable(cfg.soa.retry, "retry");
    } else if j == 6 {
      TimerIsPassable(cfg.soa.expire, "expire");
    } else if j == 7 {
      TimerIsPassable(cfg.soa.minimum, "minimum");
    }
  }

  lemma {:induction false} PublishedHeaderClean(H: Hash, cfg: ZoneConfig, serial: nat, records: seq<IPRecord>, h: string)
    requires CleanConfig(cfg) && IsHex64(h)
    ensures |PublishedLines(H, cfg, serial, records, h)| >= 14
    ensures LineList(PublishedLines(H, cfg, serial, records, h)[..14])
  {
    PublishedIndex(H, cfg, serial, records, h, 0);
    var first := PublishedLines(H, cfg, serial, records, h)[..14];
    HeaderHasNoNewline(cfg, serial);
    CommentsAreStamps(H, Plain(cfg, serial, records), h);
    forall l | l in first ensures NoNewline(l) {
      var k :| 0 <= k < 14 && first[k] == l;
      PublishedIndex(H, cfg, serial, records, h, k);
      assert l in HeaderLines(cfg, serial) || l in Comments(H, Plain(cfg, serial, records), h);
    }
  }

  /**
   * A restarted process reads back the serial of the file it finds exactly when that serial has ten digits; a smaller
   * one, as clocks gave before 2001 and will give again after the 2106 wrap, is not recognised and continuity is lost.
   */
  lemma {:induction false} SerialRoundTrip(H: Hash, cfg: ZoneConfig, serial: nat, records: seq<IPRecord>, h: string)
    requires CleanConfig(cfg) && IsHex64(h) && serial < 0x1_0000_0000
    ensures SerialOf(Published(H, cfg, serial, records, h))
         == if serial >= 1_000_000_000 then Some(serial) else None
  {
    PublishedIsItsLines(H, cfg, serial, records, h);
    var lines := ScanLines(Published(H, cfg, serial, records, h));
    ScannedFacts(H, cfg, serial, records, h, 1);
    forall k: nat | 1 <= k <= 10 ensures HeaderFact(serial, k, lines[k]) {
      ScannedFacts(H, cfg, serial, records, h, k);
    }
    ScanHeader(lines, serial);
  }

  lemma {:induction false} ScannedFacts(H: Hash, cfg: ZoneConfig, serial: nat, records: seq<IPRecord>, h: string, k: nat)
    requires CleanConfig(cfg) && IsHex64(h) && 1 <= k <= 10
    ensures var lines := ScanLines(Published(H, cfg, serial, records, h));
            |lines| >= 14 && HeaderFact(serial, k, lines[k])
  {
    hide *;
    PublishedIsItsLines(H, cfg, serial, records, h);
    PublishedHeaderClean(H, cfg, serial, records, h);
    HeaderFacts(H, cfg, serial, records, h, k);
    ScannedPrefix(PublishedLines(H, cfg, serial, records, h), 14, k);
  }

  lemma {:induction false} ScannedPrefix(all: seq<string>, n: nat, k: nat)
    requires k < n <= |all| && LineList(all[..n]) && EndsPlainly(all[k])
    ensures |ScanLines(Unlines(all))| >= n && ScanLines(Unlines(all))[k] == all[k]
  {
    hide ScanLines, Unlines;
    ScannedLine(all[..n], all[n..], k);
    assert all[..n] + all[n..] == all;
  }
}
