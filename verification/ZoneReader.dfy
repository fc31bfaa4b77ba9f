/**
 * A reader of master files by the rules of section 5.1 of RFC 1035, and the proof that it reads a published zone file
 * back to the records it was printed from. The program leaves this reading to the DNS library of its DNS server.
 */
module ZoneReader {
  import opened Wrappers
  import opened Strings
  import opened Decimal
  import opened Records
  import opened ZoneText
  import opened Stamps
  import opened ZoneFile
  import RecordOrder

  // ---- lines and words -------------------------------------------------------------------------------

  predicate IsBlank(c: char) { c == ' ' || c == '\t' || c == '\r' }

  function StripComment(line: string): string { if ';' in line then line[..Index(line, ';')] else line }

  function TakeWord(line: string): (w: string)
    ensures |w| <= |line|
    ensures line != "" && !IsBlank(line[0]) ==> w != ""
  {
    if line == "" || IsBlank(line[0]) then "" else [line[0]] + TakeWord(line[1..])
  }

  function Words(line: string): seq<string>
    decreases |line|
  {
    if line == "" then []
    else if IsBlank(line[0]) then Words(line[1..])
    else var w := TakeWord(line); [w] + Words(line[|w|..])
  }

  /** A word with no meaning to the syntax of the file. */
  predicate PlainWord(w: string) {
    && w != ""
    && forall i :: 0 <= i < |w| ==>
         !IsBlank(w[i]) && w[i] != '\n' && w[i] != ';' && w[i] != '(' && w[i] != ')' && w[i] != '"' && w[i] != '\\'
  }

  lemma {:induction false} TakesWord(w: string, rest: string)
    requires forall i :: 0 <= i < |w| ==> !IsBlank(w[i])
    requires rest == "" || IsBlank(rest[0])
    ensures TakeWord(w + rest) == w
  {
    if w == "" {
      assert w + rest == rest;
    } else {
      TakesWord(w[1..], rest);
      assert (w + rest)[1..] == w[1..] + rest;
    }
  }

  lemma {:induction false} WordThen(w: string, rest: string)
    requires w != "" && forall i :: 0 <= i < |w| ==> !IsBlank(w[i])
    requires rest == "" || IsBlank(rest[0])
    ensures Words(w + rest) == [w] + Words(rest)
  {
    TakesWord(w, rest);
    assert (w + rest)[0] == w[0];
    assert (w + rest)[|w|..] == rest;
  }

  lemma {:induction false} BlanksThen(sp: string, rest: string)
    requires AllSpaces(sp)
    ensures Words(sp + rest) == Words(rest)
  {
    if sp == "" {
      assert sp + rest == rest;
    } else {
      BlanksThen(sp[1..], rest);
      assert (sp + rest)[1..] == sp[1..] + rest;
    }
  }

  lemma {:induction false} WordsOfJoin(ws: seq<string>)
    requires forall w :: w in ws ==> w != "" && forall i :: 0 <= i < |w| ==> !IsBlank(w[i])
    ensures Words(Join(ws, " ")) == ws
  {
    if |ws| == 1 {
      assert ws[0] in ws;
      WordThen(ws[0], "");
      assert ws[0] + "" == ws[0];
    } else if |ws| > 1 {
      assert ws[0] in ws;
      var rest := Join(ws[1..], " ");
      WordsOfJoin(ws[1..]);
      WordThen(ws[0], " " + rest);
      BlanksThen(" ", rest);
      Assoc(ws[0], " ", rest);
    }
  }

  // ---- reading -------------------------------------------------------------------------------------------

  /** A relative name is completed with the origin, and @ stands for it. */
  function Absolute(name: string, origin: string): string {
    if name == "@" then origin
    else if HasSuffix(name, ".") then name
    else if origin == "." then name + "."
    else name + "." + origin
  }

  /** `open` while inside parentheses, with the words so far in `pending`; `out` is None after a syntax error. */
  datatype State = State(origin: string, ttl: nat, last: string, open: bool, pending: seq<string>, out: Option<seq<RR>>)

  function AbsoluteData(rtype: string, rdata: seq<string>, origin: string): seq<string> {
    if rtype in {"NS", "CNAME", "PTR"} && |rdata| == 1 then [Absolute(rdata[0], origin)]
    else if rtype == "SOA" && |rdata| == 7 then [Absolute(rdata[0], origin), Absolute(rdata[1], origin)] + rdata[2..]
    else rdata
  }

  function Record(st: State, owner: string, ws: seq<string>): State {
    var hasTTL := ws != [] && AllDigits(ws[0]);
    var ttl := if hasTTL then Value(ws[0]) else st.ttl;
    var rest := if hasTTL then ws[1..] else ws;
    if st.out.Some? && |rest| >= 3 && rest[0] == "IN" then
      st.(last := owner, out := Some(st.out.value + [RR(owner, ttl, rest[1], AbsoluteData(rest[1], rest[2..], st.origin))]))
    else st.(out := None)
  }

  /** One entry: a control entry, or a record whose owner is left out when the line begins with a blank. */
  function Entry(st: State, ws: seq<string>, blank: bool): State {
    if ws == [] then st
    else if blank then Record(st, st.last, ws)
    else if ws[0] == "$ORIGIN" && |ws| == 2 then st.(origin := Absolute(ws[1], st.origin))
    else if ws[0] == "$TTL" && |ws| == 2 && AllDigits(ws[1]) then st.(ttl := Value(ws[1]))
    else Record(st, Absolute(ws[0], st.origin), ws[1..])
  }

  predicate NotParen(w: string) { w != "(" && w != ")" }

  function ReadLine(st: State, line: string): State {
    var ws := Words(StripComment(line));
    var words := Filter(NotParen, ws);
    if st.open then
      if ")" in ws then Entry(st.(open := false, pending := []), st.pending + words, false)
      else st.(pending := st.pending + words)
    else if "(" in ws && ")" !in ws then st.(open := true, pending := words)
    else Entry(st, words, line != "" && IsBlank(line[0]))
  }

  function ReadLines(st: State, lines: seq<string>): State
    decreases |lines|
  {
    if lines == [] then st else ReadLines(ReadLine(st, lines[0]), lines[1..])
  }

  /** The records of a zone file, read with the zone's name as the origin to begin with. */
  function ReadZone(origin: string, content: string): Option<seq<RR>> {
    var st := ReadLines(State(origin, 0, origin, false, [], Some([])), Split(content, '\n'));
    if st.open then None else st.out
  }

  lemma {:induction false} ReadAppend(st: State, a: seq<string>, b: seq<string>)
    ensures ReadLines(st, a + b) == ReadLines(ReadLines(st, a), b)
    decreases |a|
  {
    if a == [] {
      assert a + b == b;
    } else {
      assert (a + b)[1..] == a[1..] + b;
      ReadAppend(ReadLine(st, a[0]), a[1..], b);
    }
  }

  // ---- names -------------------------------------------------------------------------------------------------

  predicate NameChars(s: string) { forall i :: 0 <= i < |s| ==> IsAlnum(s[i]) || s[i] == '-' || s[i] == '.' }

  /** Dots separate: none at either end and no two together. */
  predicate DotsSeparate(s: string) {
    forall i :: 0 <= i < |s| && s[i] == '.' ==> 0 < i < |s| - 1 && s[i - 1] != '.' && s[i + 1] != '.'
  }

  lemma {:induction false} LabelsMakeName(labels: seq<string>)
    requires |labels| >= 1 && forall l :: l in labels ==> SafeLabel(l)
    ensures var s := Join(labels, "."); s != "" && NameChars(s) && DotsSeparate(s) && s[0] != '.' && s[|s| - 1] != '.'
  {
    assert labels[0] in labels;
    if |labels| > 1 {
      LabelsMakeName(labels[1..]);
      var l, rest := labels[0], Join(labels[1..], ".");
      var s := Join(labels, ".");
      assert s == l + "." + rest;
      forall i | 0 <= i < |s| && s[i] == '.'
        ensures 0 < i < |s| - 1 && s[i - 1] != '.' && s[i + 1] != '.'
      {
        if i > |l| { assert s[i] == rest[i - |l| - 1]; }
      }
    }
  }

  /** A safe name is a string of labels, with or without a final dot. */
  lemma {:induction false} SafeNameShape(name: string)
    requires SafeZoneName(name)
    ensures var t := TrimSuffix(name, ".");
            && t != "" && NameChars(t) && DotsSeparate(t) && t[0] != '.' && t[|t| - 1] != '.'
            && EnsureTrailingDot(name) == t + "."
  {
    var t := TrimSuffix(name, ".");
    JoinSplit(t, '.');
    LabelsMakeName(Split(t, '.'));
    if HasSuffix(name, ".") { assert name == t + "."; }
  }

  lemma {:induction false} NameCharsArePlain(s: string)
    requires s != "" && NameChars(s)
    ensures PlainWord(s) && s != "@" && s[0] != '$'
  {
    assert s[0] != '@';
  }

  /** A letter, a digit or an underscore. */
  predicate WordChar(c: char) { c == '_' || '0' <= c <= '9' || 'A' <= c <= 'Z' || 'a' <= c <= 'z' }

  predicate DotWithin(t: string, i: nat)
    requires i + 64 <= |t|
  {
    exists j :: i <= j < i + 64 && t[j] == '.'
  }

  predicate NoLongLabel(t: string) { forall i: nat :: i + 64 <= |t| ==> DotWithin(t, i) }

  predicate Placed(t: string, i: nat)
    requires i < |t|
  {
    WordChar(t[i]) || t[i] == '-' || (t[i] == '.' && 0 < i < |t| - 1 && WordChar(t[i - 1]) && WordChar(t[i + 1]))
  }

  predicate PlacedChars(t: string) { forall i: nat :: i < |t| ==> Placed(t, i) }

  /**
   * A name without its final dot, letter by letter: it begins and ends with a word character, holds only those, hyphens and
   * dots with a word character on either side, and has a dot in any 64 characters in a row.
   */
  predicate WellShaped(t: string) { t != "" && WordChar(t[0]) && WordChar(t[|t| - 1]) && PlacedChars(t) && NoLongLabel(t) }

  lemma {:induction false} OneLabelShape(l: string)
    requires '.' !in l
    ensures SafeLabel(l) <==> WellShaped(l)
  {
    hide NoLongLabel;
    NoDot(l);
    forall i: nat | i < |l| ensures l[i] != '.' && (Placed(l, i) <==> IsAlnum(l[i]) || l[i] == '-') { assert l[i] in l; }
  }

  lemma Joined(l: string, rest: string)
    ensures var t := l + "." + rest;
            forall i :: 0 <= i < |t| ==> t[i] == if i < |l| then l[i] else if i == |l| then '.' else rest[i - |l| - 1]
  {
  }

  lemma {:induction false} JoinedChars(l: string, rest: string, t: string)
    requires t == l + "." + rest && l != "" && rest != "" && WordChar(l[|l| - 1]) && WordChar(rest[0]) && '.' !in l
    ensures PlacedChars(t) <==> PlacedChars(l) && PlacedChars(rest)
  {
    Joined(l, rest);
    var k := |l|;
    forall i: nat | i < k ensures Placed(t, i) <==> Placed(l, i) { assert l[i] in l; }
    assert Placed(t, k);
    forall i: nat | i < |rest| ensures Placed(t, k + 1 + i) <==> Placed(rest, i) { PlacedAfter(l, rest, t, i); }
    if PlacedChars(l) && PlacedChars(rest) {
      forall i: nat | i < |t| ensures Placed(t, i) {
        if i > k { assert Placed(rest, i - k - 1); }
      }
    }
  }

  lemma PlacedAfter(l: string, rest: string, t: string, i: nat)
    requires t == l + "." + rest && i < |rest| && WordChar(rest[0])
    ensures Placed(t, |l| + 1 + i) <==> Placed(rest, i)
  {
    Joined(l, rest);
  }

  lemma FirstDot(l: string, rest: string, t: string)
    requires t == l + "." + rest && '.' !in l && NoLongLabel(t)
    ensures |l| <= 63
  {
    Joined(l, rest);
    forall i | 0 <= i < |l| ensures t[i] != '.' { assert l[i] in l; }
    assert |t| >= 64 ==> DotWithin(t, 0);
  }

  lemma {:induction false} JoinedLong(l: string, rest: string, t: string)
    requires t == l + "." + rest && '.' !in l
    ensures NoLongLabel(t) <==> |l| <= 63 && NoLongLabel(rest)
  {
    Joined(l, rest);
    var k := |l|;
    if |l| <= 63 && NoLongLabel(rest) {
      forall i: nat | i + 64 <= |t| ensures DotWithin(t, i) {
        if i <= k {
          assert t[k] == '.';
        } else {
          assert DotWithin(rest, i - k - 1);
          var j :| i - k - 1 <= j < i - k - 1 + 64 && rest[j] == '.';
          assert t[k + 1 + j] == '.';
        }
      }
    }
    if NoLongLabel(t) {
      assert |l| <= 63 by { FirstDot(l, rest, t); }
      forall i: nat | i + 64 <= |rest| ensures DotWithin(rest, i) {
        assert DotWithin(t, k + 1 + i);
        var j :| k + 1 + i <= j < k + 1 + i + 64 && t[j] == '.';
        assert rest[j - k - 1] == '.';
      }
    }
  }

  lemma {:induction false} JoinedShape(l: string, rest: string)
    requires '.' !in l
    ensures WellShaped(l + "." + rest) <==> SafeLabel(l) && WellShaped(rest)
  {
    hide PlacedChars, NoLongLabel, WordChar;
    var t, k := l + "." + rest, |l|;
    Joined(l, rest);
    OneLabelShape(l);
    JoinedLong(l, rest, t);
    NoDot(l);
    if WellShaped(t) {
      assert t[k] == '.';
      DotInside(t, k);
      JoinedChars(l, rest, t);
    } else if WellShaped(l) && WellShaped(rest) {
      JoinedChars(l, rest, t);
    }
  }

  lemma NoDot(l: string)
    requires '.' !in l
    ensures NoLongLabel(l) <==> |l| <= 63
  {
    forall i | 0 <= i < |l| ensures l[i] != '.' { assert l[i] in l; }
    if |l| >= 64 { assert !DotWithin(l, 0); }
  }

  lemma DotInside(t: string, k: nat)
    requires PlacedChars(t) && k < |t| && t[k] == '.'
    ensures 0 < k < |t| - 1 && WordChar(t[k - 1]) && WordChar(t[k + 1])
  {
    assert Placed(t, k);
  }

  lemma {:induction false} LabelsShape(t: string)
    ensures (forall l :: l in Split(t, '.') ==> SafeLabel(l)) <==> WellShaped(t)
    decreases |t|
  {
    hide SafeLabel, WellShaped;
    if '.' in t {
      var i := Index(t, '.');
      var l, rest := t[..i], t[i + 1..];
      assert t == l + "." + rest && '.' !in l;
      LabelsShape(rest);
      assert forall x :: x in Split(t, '.') <==> x == l || x in Split(rest, '.');
      JoinedShape(l, rest);
    } else {
      OneLabelShape(t);
    }
  }

  /** Which names are safe to print, letter by letter. */
  lemma SafeNameExactlyWhen(name: string)
    ensures SafeZoneName(name) <==> 1 <= |name| <= 253 && WellShaped(if HasSuffix(name, ".") then name[..|name| - 1] else name)
  {
    hide WellShaped, SafeLabel;
    LabelsShape(TrimSuffix(name, "."));
  }

  /** Cutting the zone off the end of a name leaves its own labels. */
  lemma {:induction false} CutZone(t: string, origin: string)
    requires t != "" && NameChars(t) && DotsSeparate(t) && t[|t| - 1] != '.' && t[0] != '.'
    requires HasSuffix(origin, ".") && HasSuffix(t + ".", "." + origin)
    ensures var short := TrimSuffix(t + ".", "." + origin);
            && short != "" && NameChars(short) && short[|short| - 1] != '.'
            && short + "." + origin == t + "." && origin != "."
  {
    var fqdn, suffix := t + ".", "." + origin;
    var k := |fqdn| - |suffix|;
    assert fqdn[k] == suffix[0] == '.';
    assert |origin| >= 1 && k < |t|;
    assert t[k] == '.' && k > 0 && t[k - 1] != '.' && k < |t| - 1;
    var short := fqdn[..k];
    assert short == t[..k];
    assert fqdn == short + suffix;
    Assoc(short, ".", origin);
  }

  /** What is written for a safe name reads back to that name, dot-terminated, whatever the zone. */
  lemma {:induction false} ShortNameExpands(name: string, zone: string)
    requires SafeZoneName(name)
    ensures var origin := EnsureTrailingDot(zone); Absolute(ShortName(name, origin), origin) == EnsureTrailingDot(name)
    ensures PlainWord(ShortName(name, EnsureTrailingDot(zone)))
    ensures ShortName(name, EnsureTrailingDot(zone))[0] != '$'
  {
    var origin := EnsureTrailingDot(zone);
    SafeNameShape(name);
    var t := TrimSuffix(name, ".");
    if t + "." == origin {
      assert ShortName(name, origin) == "@";
    } else if HasSuffix(t + ".", "." + origin) {
      CutZone(t, origin);
      NameCharsArePlain(ShortName(name, origin));
    } else {
      assert ShortName(name, origin) == t + ".";
      assert NameChars(t + ".");
      NameCharsArePlain(t + ".");
    }
  }

  // ---- what the records mean --------------------------------------------------------------------------------------

  function Meaning(cfg: ZoneConfig, r: IPRecord): RR {
    var origin := EnsureTrailingDot(cfg.origin);
    if cfg.ztype == Reverse then
      RR(if r.address == "" then origin else r.address + "." + origin, cfg.ttl, "PTR", [EnsureTrailingDot(r.dnsName)])
    else
      RR(EnsureTrailingDot(r.dnsName), if r.ttl > 0 then r.ttl else cfg.ttl, RRType(r), [RRValue(r)])
  }

  /** An address that can stand in its place on a line: the value of an address record, or the label of a PTR. */
  predicate PrintableAddress(cfg: ZoneConfig, r: IPRecord) {
    if cfg.ztype == Reverse then
      r.address == "" || (PlainWord(r.address) && r.address != "@" && r.address[0] != '$' && !HasSuffix(r.address, "."))
    else r.IsCNAME() || PlainWord(r.address)
  }

  predicate Printable(cfg: ZoneConfig, r: IPRecord) { SafeRecord(r) && PrintableAddress(cfg, r) }

  predicate PrintableConfig(cfg: ZoneConfig) {
    && cfg.origin != "" && cfg.origin != "."
    && PlainWord(cfg.origin) && PlainWord(cfg.primaryNS) && PlainWord(cfg.adminEmail)
    && (cfg.primaryNSIP != "" ==> PlainWord(cfg.primaryNSIP) && SafeZoneName(NSName(cfg)))
  }

  // ---- reading one line ------------------------------------------------------------------------------------------------

  predicate LineWord(w: string) { w != "" && forall i :: 0 <= i < |w| ==> !IsBlank(w[i]) && w[i] != ';' && w[i] != '\n' }

  lemma {:induction false} JoinChars(ws: seq<string>, c: char)
    requires forall w :: w in ws ==> c !in w
    requires c != ' '
    ensures c !in Join(ws, " ")
  {
    if |ws| == 1 {
      assert ws[0] in ws;
    } else if |ws| > 1 {
      assert ws[0] in ws;
      JoinChars(ws[1..], c);
    }
  }

  lemma {:induction false} JoinStart(ws: seq<string>)
    requires ws != [] && ws[0] != ""
    ensures Join(ws, " ") != "" && Join(ws, " ")[0] == ws[0][0]
  {
  }

  /** A line of words is read as those words. */
  lemma {:induction false} LineOfWords(ws: seq<string>)
    requires ws != [] && forall w :: w in ws ==> LineWord(w)
    ensures var l := Join(ws, " ");
            StripComment(l) == l && Words(l) == ws && NoNewline(l) && l != "" && !IsBlank(l[0])
  {
    forall w | w in ws ensures ';' !in w && '\n' !in w { assert LineWord(w); }
    JoinChars(ws, ';');
    JoinChars(ws, '\n');
    WordsOfJoin(ws);
    assert ws[0] in ws;
    JoinStart(ws);
  }

  lemma {:induction false} AllPlain(ws: seq<string>)
    requires forall w :: w in ws ==> PlainWord(w)
    ensures Filter(NotParen, ws) == ws && "(" !in ws && ")" !in ws
    ensures forall w :: w in ws ==> LineWord(w)
  {
    assert !PlainWord("(") && !PlainWord(")") by { assert "("[0] == '(' && ")"[0] == ')'; }
    if ws != [] {
      assert PlainWord(ws[0]);
      AllPlain(ws[1..]);
    }
  }

  predicate Ready(st: State) { !st.open && st.pending == [] && st.out.Some? }

  function Added(st: State, rr: RR): State
    requires st.out.Some?
  {
    st.(last := rr.owner, out := Some(st.out.value + [rr]))
  }

  /** A line of plain words is read as one entry. */
  lemma {:induction false} PlainLine(st: State, ws: seq<string>)
    requires Ready(st) && ws != [] && forall w :: w in ws ==> PlainWord(w)
    ensures ReadLine(st, Join(ws, " ")) == Entry(st, ws, false)
    ensures NoNewline(Join(ws, " "))
  {
    AllPlain(ws);
    LineOfWords(ws);
  }

  lemma {:induction false} DigitsArePlain(n: nat)
    ensures PlainWord(Dec(n))
  {
    forall i | 0 <= i < |Dec(n)| ensures IsDigit(Dec(n)[i]) {}
  }

  function RecordWords(name: string, ttl: nat, rtype: string, value: string): seq<string> {
    [name] + (if ttl > 0 then [Dec(ttl)] else []) + ["IN", rtype, value]
  }

  /** A record line is read as that record, its owner made absolute and the zone's TTL supplied if it has none. */
  lemma {:induction false} RecordLineRead(st: State, name: string, ttl: nat, rtype: string, value: string)
    requires Ready(st)
    requires PlainWord(name) && name[0] != '$' && PlainWord(rtype) && PlainWord(value)
    ensures var line := Join(RecordWords(name, ttl, rtype, value), " ");
            && NoNewline(line)
            && ReadLine(st, line) == Added(st, RR(Absolute(name, st.origin), if ttl > 0 then ttl else st.ttl, rtype,
                                                  AbsoluteData(rtype, [value], st.origin)))
  {
    var ws := RecordWords(name, ttl, rtype, value);
    DigitsArePlain(ttl);
    ValueDec(ttl);
    forall w | w in ws ensures PlainWord(w) {}
    PlainLine(st, ws);
    assert name != "$ORIGIN" && name != "$TTL";
    assert !AllDigits("IN") by { assert "IN"[0] == 'I'; }
    if ttl > 0 {
      assert ws[1..] == [Dec(ttl), "IN", rtype, value];
      assert ws[1..][1..] == ["IN", rtype, value];
    } else {
      assert ws[1..] == ["IN", rtype, value];
    }
    assert ["IN", rtype, value][2..] == [value];
  }

  lemma {:induction false} JoinFour(a: string, b: string, c: string, d: string)
    ensures Join([a, b, c, d], " ") == a + (" " + (b + (" " + (c + (" " + d)))))
  {
    assert [a, b, c, d][1..] == [b, c, d] && [b, c, d][1..] == [c, d] && [c, d][1..] == [d];
    assert Join([d], " ") == d;
    assert Join([c, d], " ") == c + " " + d;
    assert Join([b, c, d], " ") == b + " " + Join([c, d], " ");
    Assoc(a, " ", Join([b, c, d], " "));
    Assoc(b, " ", Join([c, d], " "));
    Assoc(c, " ", d);
  }

  lemma {:induction false} InWords(a: string, t: string, v: string)
    ensures a + " IN " + t + " " + v == a + (" " + ("IN" + (" " + (t + (" " + v)))))
  {
    assert " IN " == " " + "IN" + " ";
    Assoc(a, " IN ", t);
    Assoc(a, " IN " + t, " ");
    Assoc(a, " IN " + t + " ", v);
    Assoc(t, " ", v);
    Assoc(" IN ", t, " ");
    Assoc(" IN ", t + " ", v);
    Assoc(" " + "IN", " ", t + " " + v);
    Assoc(" ", "IN", " " + (t + " " + v));
  }

  /** The words of a rendered line. */
  lemma {:induction false} RenderedWords(name: string, ttl: nat, rtype: string, value: string)
    ensures name + (if ttl > 0 then " " + Dec(ttl) else "") + " IN " + rtype + " " + value
         == Join(RecordWords(name, ttl, rtype, value), " ")
  {
    if ttl > 0 {
      var ws := RecordWords(name, ttl, rtype, value);
      assert ws == [name, Dec(ttl), "IN", rtype, value] && ws[1..] == [Dec(ttl), "IN", rtype, value];
      JoinFour(Dec(ttl), "IN", rtype, value);
      InWords(Dec(ttl), rtype, value);
      var tail := Dec(ttl) + " IN " + rtype + " " + value;
      assert Join(ws, " ") == name + " " + tail;
      Assoc(name, " ", Dec(ttl));
      Assoc(name + " ", Dec(ttl), " IN ");
      Assoc(name + " ", Dec(ttl) + " IN ", rtype);
      Assoc(name + " ", Dec(ttl) + " IN " + rtype, " ");
      Assoc(name + " ", Dec(ttl) + " IN " + rtype + " ", value);
    } else {
      assert RecordWords(name, ttl, rtype, value) == [name, "IN", rtype, value];
      JoinFour(name, "IN", rtype, value);
      InWords(name, rtype, value);
      assert name + "" == name;
    }
  }

  lemma {:induction false} DottedIsPlain(name: string)
    requires SafeZoneName(name)
    ensures PlainWord(EnsureTrailingDot(name)) && HasSuffix(EnsureTrailingDot(name), ".")
    ensures forall origin :: Absolute(EnsureTrailingDot(name), origin) == EnsureTrailingDot(name)
  {
    SafeNameShape(name);
    var fqdn := EnsureTrailingDot(name);
    assert NameChars(fqdn);
    NameCharsArePlain(fqdn);
  }

  lemma {:induction false} PTRReadsBack(cfg: ZoneConfig, st: State, r: IPRecord)
    requires Ready(st) && st.origin == EnsureTrailingDot(cfg.origin) && st.ttl == cfg.ttl
    requires EnsureTrailingDot(cfg.origin) != "." && cfg.ztype == Reverse
    requires Printable(cfg, r)
    ensures NoNewline(RecordLine(cfg, r))
    ensures ReadLine(st, RecordLine(cfg, r)) == Added(st, Meaning(cfg, r))
  {
    DottedIsPlain(r.dnsName);
    var owner, target := if r.address == "" then "@" else r.address, EnsureTrailingDot(r.dnsName);
    assert PlainWord("@") && PlainWord("PTR");
    PTRWords(owner, target);
    RecordLineRead(st, owner, 0, "PTR", target);
    PTRData(target, st.origin);
    assert Absolute(owner, st.origin) == if r.address == "" then st.origin else r.address + "." + st.origin;
  }

  lemma {:induction false} PTRWords(owner: string, target: string)
    ensures owner + " IN PTR " + target == Join(RecordWords(owner, 0, "PTR", target), " ")
  {
    RenderedWords(owner, 0, "PTR", target);
    assert owner + "" == owner;
    assert " IN PTR " == " IN " + "PTR" + " ";
    Assoc(owner, " IN ", "PTR");
    Assoc(owner, " IN " + "PTR", " ");
  }

  lemma {:induction false} PTRData(target: string, origin: string)
    requires Absolute(target, origin) == target
    ensures AbsoluteData("PTR", [target], origin) == [target]
  {
  }

  lemma {:induction false} AddressReadsBack(cfg: ZoneConfig, st: State, r: IPRecord)
    requires Ready(st) && st.origin == EnsureTrailingDot(cfg.origin) && st.ttl == cfg.ttl && cfg.ztype != Reverse
    requires Printable(cfg, r)
    ensures NoNewline(RecordLine(cfg, r))
    ensures ReadLine(st, RecordLine(cfg, r)) == Added(st, Meaning(cfg, r))
  {
    var short := ShortName(r.dnsName, st.origin);
    ShortNameExpands(r.dnsName, cfg.origin);
    assert PlainWord("A") && PlainWord("AAAA") && PlainWord("CNAME");
    if r.IsCNAME() { DottedIsPlain(r.cnameTarget); }
    RenderedWords(short, r.ttl, RRType(r), RRValue(r));
    RecordLineRead(st, short, r.ttl, RRType(r), RRValue(r));
    assert AbsoluteData(RRType(r), [RRValue(r)], st.origin) == [RRValue(r)];
  }

  /** Each record's line is read as what the record means. */
  lemma {:induction false} RecordReadsBack(cfg: ZoneConfig, st: State, r: IPRecord)
    requires Ready(st) && st.origin == EnsureTrailingDot(cfg.origin) && st.ttl == cfg.ttl
    requires EnsureTrailingDot(cfg.origin) != "."
    requires Printable(cfg, r)
    ensures NoNewline(RecordLine(cfg, r))
    ensures ReadLine(st, RecordLine(cfg, r)) == Added(st, Meaning(cfg, r))
  {
    if cfg.ztype == Reverse {
      PTRReadsBack(cfg, st, r);
    } else {
      AddressReadsBack(cfg, st, r);
    }
  }

  lemma {:induction false} RecordsReadBack(cfg: ZoneConfig, st: State, rs: seq<IPRecord>)
    requires Ready(st) && st.origin == EnsureTrailingDot(cfg.origin) && st.ttl == cfg.ttl
    requires EnsureTrailingDot(cfg.origin) != "."
    requires forall r :: r in rs ==> Printable(cfg, r)
    decreases |rs|
    ensures LineList(RecordLines(cfg, rs))
    ensures var after := ReadLines(st, RecordLines(cfg, rs));
            Ready(after) && after.out.value == st.out.value + Meanings(cfg, rs)
  {
    if rs == [] {
      assert st.out.value + [] == st.out.value;
    } else {
      var lines := RecordLines(cfg, rs);
      assert rs[0] in rs && lines[0] == RecordLine(cfg, rs[0]);
      RecordReadsBack(cfg, st, rs[0]);
      var next := ReadLine(st, lines[0]);
      RecordsReadBack(cfg, next, rs[1..]);
      assert lines[1..] == RecordLines(cfg, rs[1..]);
      Assoc(st.out.value, [Meaning(cfg, rs[0])], Meanings(cfg, rs[1..]));
    }
  }

  function Meanings(cfg: ZoneConfig, rs: seq<IPRecord>): seq<RR> { Map((r: IPRecord) => Meaning(cfg, r), rs) }

  // ---- reading the header --------------------------------------------------------------------------------------------------

  lemma {:induction false} ReadTwo(st: State, a: string, b: string)
    ensures ReadLines(st, [a, b]) == ReadLine(ReadLine(st, a), b)
  {
    hide ReadLine;
    assert [a, b][1..] == [b] && [b][1..] == [];
    assert ReadLines(ReadLine(ReadLine(st, a), b), []) == ReadLine(ReadLine(st, a), b);
    assert ReadLines(ReadLine(st, a), [b]) == ReadLine(ReadLine(st, a), b);
  }

  lemma {:induction false} ReadThree(st: State, a: string, b: string, c: string)
    ensures ReadLines(st, [a, b, c]) == ReadLine(ReadLine(ReadLine(st, a), b), c)
  {
    hide ReadLine;
    assert [a, b, c][1..] == [b, c];
    ReadTwo(ReadLine(st, a), b, c);
  }

  lemma {:induction false} TwoWords(a: string, b: string)
    ensures Join([a, b], " ") == a + " " + b
  {
    assert [a, b][1..] == [b];
  }

  lemma {:induction false} ReadControls(st: State, o: string, ttl: nat)
    requires Ready(st) && PlainWord(o) && HasSuffix(o, ".")
    ensures ReadLines(st, ["$ORIGIN " + o, "$TTL " + Dec(ttl)]) == st.(origin := o, ttl := ttl)
  {
    assert PlainWord("$ORIGIN") && PlainWord("$TTL");
    TwoWords("$ORIGIN", o);
    assert "$ORIGIN " == "$ORIGIN" + " ";
    PlainLine(st, ["$ORIGIN", o]);
    assert Absolute(o, st.origin) == o;
    var st1 := st.(origin := o);
    DigitsArePlain(ttl);
    ValueDec(ttl);
    TwoWords("$TTL", Dec(ttl));
    assert "$TTL " == "$TTL" + " ";
    PlainLine(st1, ["$TTL", Dec(ttl)]);
    ReadTwo(st, "$ORIGIN " + o, "$TTL " + Dec(ttl));
  }

  lemma {:induction false} ReadComment(st: State, line: string)
    requires Ready(st) && line != "" && line[0] == ';'
    ensures ReadLine(st, line) == st
  {
    assert Index(line, ';') == 0;
    assert StripComment(line) == "";
  }

  lemma {:induction false} ReadEmpty(st: State)
    requires Ready(st)
    ensures ReadLine(st, "") == st
  {
  }

  lemma {:induction false} SOAWords(ns: string, admin: string)
    ensures "@ IN SOA " + ns + " " + admin + " (" == Join(["@", "IN", "SOA", ns, admin, "("], " ")
  {
    JoinFour("SOA", ns, admin, "(");
    var tail := "SOA" + (" " + (ns + (" " + (admin + (" " + "(")))));
    var ws := ["@", "IN", "SOA", ns, admin, "("];
    assert ws[1..] == ["IN", "SOA", ns, admin, "("] && ws[1..][1..] == ["SOA", ns, admin, "("];
    assert Join(ws[1..], " ") == "IN" + " " + tail;
    assert Join(ws, " ") == "@" + " " + ("IN" + " " + tail);
    assert "@ IN SOA " == "@" + " " + ("IN" + " " + "SOA" + " ");
    assert "@ IN SOA " + ns + " " + admin + " (" == "@" + " " + ("IN" + " " + tail);
  }

  lemma {:induction false} ReadSOAOpen(st: State, ns: string, admin: string)
    requires Ready(st) && PlainWord(ns) && PlainWord(admin)
    ensures ReadLine(st, "@ IN SOA " + ns + " " + admin + " (")
         == st.(open := true, pending := ["@", "IN", "SOA", ns, admin])
  {
    var plain := ["@", "IN", "SOA", ns, admin];
    assert PlainWord("@") && PlainWord("IN") && PlainWord("SOA");
    SOAWords(ns, admin);
    assert plain + ["("] == ["@", "IN", "SOA", ns, admin, "("];
    OpeningLine(st, plain);
  }

  lemma {:induction false} OpeningLine(st: State, plain: seq<string>)
    requires Ready(st) && plain != [] && forall w :: w in plain ==> PlainWord(w)
    ensures ReadLine(st, Join(plain + ["("], " ")) == st.(open := true, pending := plain)
  {
    AllPlain(plain);
    assert LineWord("(");
    LineOfWords(plain + ["("]);
    FilterAppend(NotParen, plain, ["("]);
    assert Filter(NotParen, ["("]) == [];
  }

  /** A number of the SOA record, its comment dropped. */
  lemma {:induction false} ReadNumber(st: State, digits: string, pad: string, what: string)
    requires st.open && AllDigits(digits) && AllSpaces(pad)
    ensures ReadLine(st, SOALine(digits + pad, what)) == st.(pending := st.pending + [digits])
  {
    var line := SOALine(digits + pad, what);
    var before := "    " + (digits + pad) + " ";
    assert " ; " == " " + ";" + " ";
    assert line == before + ";" + (" " + what);
    forall c | c in before ensures c != ';' {}
    IndexAppend(before, ';', " " + what);
    assert StripComment(line) == before;
    Assoc("    ", digits + pad, " ");
    Assoc(digits, pad, " ");
    BlanksThen("    ", digits + (pad + " "));
    WordThen(digits, pad + " ");
    BlanksThen(pad + " ", "");
    assert pad + " " + "" == pad + " ";
    assert Words(before) == [digits];
    assert NotParen(digits) && digits != ")" by { assert IsDigit(digits[0]); }
    assert Filter(NotParen, [digits]) == [digits];
  }

  lemma {:induction false} ReadPadded(st: State, n: nat, what: string)
    requires st.open
    ensures ReadLine(st, SOALine(Padded(n), what)) == st.(pending := st.pending + [Dec(n)])
  {
    ReadNumber(st, Dec(n), Spaces(if |Dec(n)| < 9 then 9 - |Dec(n)| else 0), what);
  }

  lemma {:induction false} ReadSOAClose(st: State)
    requires st.open
    ensures ReadLine(st, ")") == Entry(st.(open := false, pending := []), st.pending, false)
  {
    WordThen(")", "");
    assert ")" + "" == ")";
    assert Words(")") == [")"];
    assert Filter(NotParen, [")"]) == [];
    assert st.pending + [] == st.pending;
  }

  function SOAData(cfg: ZoneConfig, serial: nat): seq<string> {
    [cfg.primaryNS, cfg.adminEmail, Dec(serial), Dec(cfg.soa.refresh), Dec(cfg.soa.retry), Dec(cfg.soa.expire), Dec(cfg.soa.minimum)]
  }

  /** The SOA record as meant: names relative to the zone unless dot-terminated, and the five numbers. */
  function SOARecord(cfg: ZoneConfig, serial: nat): RR {
    var o := EnsureTrailingDot(cfg.origin);
    RR(o, cfg.ttl, "SOA", AbsoluteData("SOA", SOAData(cfg, serial), o))
  }

  function NSRecordRead(cfg: ZoneConfig): RR {
    var o := EnsureTrailingDot(cfg.origin);
    RR(o, cfg.ttl, "NS", [Absolute(cfg.primaryNS, o)])
  }

  lemma {:induction false} SOAEntry(st: State, cfg: ZoneConfig, serial: nat)
    requires Ready(st) && st.origin == EnsureTrailingDot(cfg.origin) && st.ttl == cfg.ttl
    ensures Entry(st, ["@", "IN", "SOA"] + SOAData(cfg, serial), false) == Added(st, SOARecord(cfg, serial))
  {
    var ws := ["@", "IN", "SOA"] + SOAData(cfg, serial);
    assert ws[0] == "@" && ws[1..][0] == "IN" && ws[1..][1] == "SOA" && ws[1..][2..] == SOAData(cfg, serial);
    assert !AllDigits("IN") by { assert "IN"[0] == 'I'; }
  }

  function Controls(cfg: ZoneConfig, serial: nat): seq<string> { HeaderLines(cfg, serial)[..2] }

  function RestOfHeader(cfg: ZoneConfig, serial: nat): seq<string> { HeaderLines(cfg, serial)[2..] }

  /** The header in the pieces it is read in. */
  lemma {:induction false} HeaderPieces(cfg: ZoneConfig, serial: nat)
    ensures Controls(cfg, serial) == ["$ORIGIN " + EnsureTrailingDot(cfg.origin), "$TTL " + Dec(cfg.ttl)]
    ensures RestOfHeader(cfg, serial) ==
           ["@ IN SOA " + cfg.primaryNS + " " + cfg.adminEmail + " (",
            SOALine(Dec(serial) + "  ", "serial"), SOALine(Padded(cfg.soa.refresh), "refresh")]
           + [SOALine(Padded(cfg.soa.retry), "retry"), SOALine(Padded(cfg.soa.expire), "expire")]
           + [SOALine(Padded(cfg.soa.minimum), "minimum"), ")"]
           + ["", "@ IN NS " + cfg.primaryNS, ""]
  {
  }

  lemma {:induction false} ReadSOA(st: State, cfg: ZoneConfig, serial: nat)
    requires Ready(st) && st.origin == EnsureTrailingDot(cfg.origin) && st.ttl == cfg.ttl
    requires PlainWord(cfg.primaryNS) && PlainWord(cfg.adminEmail)
    ensures ReadLines(st,
              ["@ IN SOA " + cfg.primaryNS + " " + cfg.adminEmail + " (",
               SOALine(Dec(serial) + "  ", "serial"), SOALine(Padded(cfg.soa.refresh), "refresh")]
              + [SOALine(Padded(cfg.soa.retry), "retry"), SOALine(Padded(cfg.soa.expire), "expire")]
              + [SOALine(Padded(cfg.soa.minimum), "minimum"), ")"])
         == Added(st, SOARecord(cfg, serial))
  {
    hide ReadLine, ReadLines, Entry, SOALine, Padded, Dec, SOARecord, EnsureTrailingDot;
    var a, b, c := "@ IN SOA " + cfg.primaryNS + " " + cfg.adminEmail + " (",
                   SOALine(Dec(serial) + "  ", "serial"), SOALine(Padded(cfg.soa.refresh), "refresh");
    var d, e := SOALine(Padded(cfg.soa.retry), "retry"), SOALine(Padded(cfg.soa.expire), "expire");
    var f := SOALine(Padded(cfg.soa.minimum), "minimum");
    ReadSOAOpen(st, cfg.primaryNS, cfg.adminEmail);
    var st1 := st.(open := true, pending := ["@", "IN", "SOA", cfg.primaryNS, cfg.adminEmail]);
    ReadNumber(st1, Dec(serial), "  ", "serial");
    var st2 := st1.(pending := st1.pending + [Dec(serial)]);
    ReadPadded(st2, cfg.soa.refresh, "refresh");
    var st3 := st2.(pending := st2.pending + [Dec(cfg.soa.refresh)]);
    ReadThree(st, a, b, c);
    ReadPadded(st3, cfg.soa.retry, "retry");
    var st4 := st3.(pending := st3.pending + [Dec(cfg.soa.retry)]);
    ReadPadded(st4, cfg.soa.expire, "expire");
    var st5 := st4.(pending := st4.pending + [Dec(cfg.soa.expire)]);
    ReadTwo(st3, d, e);
    ReadPadded(st5, cfg.soa.minimum, "minimum");
    var st6 := st5.(pending := st5.pending + [Dec(cfg.soa.minimum)]);
    ReadSOAClose(st6);
    ReadTwo(st5, f, ")");
    assert st6.pending == ["@", "IN", "SOA"] + SOAData(cfg, serial);
    assert st6.(open := false, pending := []) == st;
    SOAEntry(st, cfg, serial);
    ReadAppend(st, [a, b, c] + [d, e], [f, ")"]);
    ReadAppend(st, [a, b, c], [d, e]);
  }

  lemma {:induction false} ReadNS(st: State, cfg: ZoneConfig)
    requires Ready(st) && st.origin == EnsureTrailingDot(cfg.origin) && st.ttl == cfg.ttl
    requires PlainWord(cfg.primaryNS)
    ensures ReadLines(st, ["", "@ IN NS " + cfg.primaryNS, ""]) == Added(st, NSRecordRead(cfg))
  {
    assert PlainWord("@") && PlainWord("NS");
    RenderedWords("@", 0, "NS", cfg.primaryNS);
    assert "@" + "" + " IN " + "NS" + " " == "@ IN NS ";
    RecordLineRead(st, "@", 0, "NS", cfg.primaryNS);
    ReadEmpty(st);
    ReadEmpty(Added(st, NSRecordRead(cfg)));
    ReadThree(st, "", "@ IN NS " + cfg.primaryNS, "");
  }

  // ---- the whole file ---------------------------------------------------------------------------------------------------------

  function NSAddressRecords(cfg: ZoneConfig, records: seq<IPRecord>): seq<RR> {
    if ServesNSAddress(cfg, records) then
      [RR(EnsureTrailingDot(NSName(cfg)), cfg.ttl, NSAddressType(cfg), [cfg.primaryNSIP])]
    else []
  }

  lemma {:induction false} NSAddressReadsBack(st: State, cfg: ZoneConfig)
    requires Ready(st) && st.origin == EnsureTrailingDot(cfg.origin) && st.ttl == cfg.ttl
    requires SafeZoneName(NSName(cfg)) && PlainWord(cfg.primaryNSIP)
    ensures var line := ShortName(NSName(cfg), st.origin) + " IN " + NSAddressType(cfg) + " " + cfg.primaryNSIP;
            && NoNewline(line)
            && ReadLine(st, line)
               == Added(st, RR(EnsureTrailingDot(NSName(cfg)), cfg.ttl, NSAddressType(cfg), [cfg.primaryNSIP]))
  {
    var short, rtype := ShortName(NSName(cfg), st.origin), NSAddressType(cfg);
    ShortNameExpands(NSName(cfg), cfg.origin);
    assert PlainWord("A") && PlainWord("AAAA");
    RenderedWords(short, 0, rtype, cfg.primaryNSIP);
    assert short + "" == short;
    RecordLineRead(st, short, 0, rtype, cfg.primaryNSIP);
    assert AbsoluteData(rtype, [cfg.primaryNSIP], st.origin) == [cfg.primaryNSIP];
  }

  lemma {:induction false} ReadNSAddress(st: State, cfg: ZoneConfig, records: seq<IPRecord>)
    requires Ready(st) && st.origin == EnsureTrailingDot(cfg.origin) && st.ttl == cfg.ttl
    requires PrintableConfig(cfg)
    ensures LineList(NSAddressLines(cfg, records))
    ensures var after := ReadLines(st, NSAddressLines(cfg, records));
            && Ready(after) && after.origin == st.origin && after.ttl == st.ttl
            && after.out.value == st.out.value + NSAddressRecords(cfg, records)
  {
    hide ReadLine, ShortName, NSAddressType, NSName, SafeZoneName, PlainWord, EnsureTrailingDot;
    if ServesNSAddress(cfg, records) {
      NSAddressReadsBack(st, cfg);
      var rr := NSAddressRecords(cfg, records)[0];
      ReadEmpty(Added(st, rr));
      ReadTwo(st, NSAddressLines(cfg, records)[0], "");
    } else {
      assert st.out.value + [] == st.out.value;
    }
  }

  lemma {:induction false} ReadChain(st: State, a: seq<string>, st1: State, b: seq<string>, st2: State)
    requires ReadLines(st, a) == st1 && ReadLines(st1, b) == st2
    ensures ReadLines(st, a + b) == st2
  {
    hide ReadLine, ReadLines;
    ReadAppend(st, a, b);
  }

  lemma {:induction false} ReadComments(H: Hash, body: string, h: string, st: State)
    requires Ready(st)
    ensures ReadLines(st, Comments(H, body, h)) == st
  {
    hide ReadLine, ReadLines;
    var c, d := CONTENT_PREFIX + h, BODY_PREFIX + H.Of(StripStamps(body));
    assert c[0] == CONTENT_PREFIX[0] == ';' && d[0] == BODY_PREFIX[0] == ';';
    ReadComment(st, c);
    ReadComment(st, d);
    ReadTwo(st, c, d);
  }

  lemma {:induction false} OriginIsPlain(o: string)
    requires PlainWord(o)
    ensures PlainWord(EnsureTrailingDot(o)) && HasSuffix(EnsureTrailingDot(o), ".")
  {
  }

  lemma {:induction false} ControlsRead(st: State, cfg: ZoneConfig, serial: nat)
    requires PlainWord(cfg.origin) && Ready(st)
    ensures ReadLines(st, Controls(cfg, serial)) == AtOrigin(st, cfg)
  {
    hide ReadLine, ReadLines, HeaderLines, Controls, RestOfHeader, PlainWord, HasSuffix, Dec, EnsureTrailingDot;
    HeaderPieces(cfg, serial);
    OriginIsPlain(cfg.origin);
    ReadControls(st, EnsureTrailingDot(cfg.origin), cfg.ttl);
  }

  function AtOrigin(st: State, cfg: ZoneConfig): State { st.(origin := EnsureTrailingDot(cfg.origin), ttl := cfg.ttl) }

  lemma {:induction false} ReadStart(H: Hash, cfg: ZoneConfig, serial: nat, body: string, h: string, st: State)
    requires PlainWord(cfg.origin) && Ready(st)
    ensures ReadLines(st, Controls(cfg, serial) + Comments(H, body, h)) == AtOrigin(st, cfg)
  {
    hide ReadLine, ReadLines, HeaderLines, Controls, RestOfHeader, Comments, PlainWord, EnsureTrailingDot;
    ControlsRead(st, cfg, serial);
    var st1 := AtOrigin(st, cfg);
    ReadComments(H, body, h, st1);
    ReadChain(st, Controls(cfg, serial), st1, Comments(H, body, h), st1);
  }

  lemma {:induction false} ReadAfterComments(st: State, cfg: ZoneConfig, serial: nat)
    requires PrintableConfig(cfg)
    requires Ready(st) && st.origin == EnsureTrailingDot(cfg.origin) && st.ttl == cfg.ttl
    ensures ReadLines(st, RestOfHeader(cfg, serial)) == Added(Added(st, SOARecord(cfg, serial)), NSRecordRead(cfg))
  {
    hide ReadLine, ReadLines, SOALine, Padded, Dec, HeaderLines, Controls, RestOfHeader, AbsoluteData, SOAData, EnsureTrailingDot;
    HeaderPieces(cfg, serial);
    ReadSOA(st, cfg, serial);
    ReadNS(Added(st, SOARecord(cfg, serial)), cfg);
    ReadAppend(st,
              ["@ IN SOA " + cfg.primaryNS + " " + cfg.adminEmail + " (",
               SOALine(Dec(serial) + "  ", "serial"), SOALine(Padded(cfg.soa.refresh), "refresh")]
              + [SOALine(Padded(cfg.soa.retry), "retry"), SOALine(Padded(cfg.soa.expire), "expire")]
              + [SOALine(Padded(cfg.soa.minimum), "minimum"), ")"],
              ["", "@ IN NS " + cfg.primaryNS, ""]);
  }

  function AfterHeader(st: State, cfg: ZoneConfig, serial: nat): State
    requires Ready(st)
  {
    Added(Added(AtOrigin(st, cfg), SOARecord(cfg, serial)), NSRecordRead(cfg))
  }

  lemma {:induction false} ReadHeader(H: Hash, cfg: ZoneConfig, serial: nat, body: string, h: string, st: State)
    requires PrintableConfig(cfg) && Ready(st)
    ensures ReadLines(st, Controls(cfg, serial) + Comments(H, body, h) + RestOfHeader(cfg, serial))
         == AfterHeader(st, cfg, serial)
  {
    hide ReadLine, ReadLines, HeaderLines, Controls, RestOfHeader, Comments, SOARecord, NSRecordRead, EnsureTrailingDot, PlainWord, SafeZoneName;
    var st1 := AtOrigin(st, cfg);
    ReadStart(H, cfg, serial, body, h, st);
    ReadAfterComments(st1, cfg, serial);
    ReadChain(st, Controls(cfg, serial) + Comments(H, body, h), st1, RestOfHeader(cfg, serial),
              AfterHeader(st, cfg, serial));
  }

  lemma {:induction false} SortedMeanings(cfg: ZoneConfig, records: seq<IPRecord>)
    ensures multiset(Meanings(cfg, RecordOrder.Sort(records))) == multiset(Meanings(cfg, records))
    ensures NSAddressRecords(cfg, RecordOrder.Sort(records)) == NSAddressRecords(cfg, records)
    ensures forall r :: r in RecordOrder.Sort(records) <==> r in records
  {
    var sorted := RecordOrder.Sort(records);
    RecordOrder.SortSorts(records);
    MapPermutation((r: IPRecord) => Meaning(cfg, r), sorted, records);
    forall r ensures r in sorted <==> r in records {
      assert r in multiset(sorted) <==> r in multiset(records);
    }
  }

  lemma {:induction false} PublishedPieces(H: Hash, cfg: ZoneConfig, serial: nat, records: seq<IPRecord>, h: string)
    ensures PublishedLines(H, cfg, serial, records, h)
         == Controls(cfg, serial) + Comments(H, Plain(cfg, serial, records), h) + RestOfHeader(cfg, serial)
            + (NSAddressLines(cfg, RecordOrder.Sort(records)) + RecordLines(cfg, RecordOrder.Sort(records)))
  {
    var header, comments := HeaderLines(cfg, serial), Comments(H, Plain(cfg, serial, records), h);
    var sorted := RecordOrder.Sort(records);
    Assoc(header, NSAddressLines(cfg, sorted), RecordLines(cfg, sorted));
    InsertedPieces(header, comments, NSAddressLines(cfg, sorted) + RecordLines(cfg, sorted));
  }

  lemma {:induction false} InsertedPieces(header: seq<string>, comments: seq<string>, tail: seq<string>)
    requires |header| >= 2
    ensures (header + tail)[..2] + comments + (header + tail)[2..] == header[..2] + comments + header[2..] + tail
  {
    assert (header + tail)[..2] == header[..2];
    assert (header + tail)[2..] == header[2..] + tail;
    Assoc(header[..2] + comments, header[2..], tail);
  }

  lemma {:induction false} TailReads(cfg: ZoneConfig, st: State, sorted: seq<IPRecord>)
    requires PrintableConfig(cfg)
    requires forall r :: r in sorted ==> Printable(cfg, r)
    requires Ready(st) && st.origin == EnsureTrailingDot(cfg.origin) && st.ttl == cfg.ttl
    ensures LineList(NSAddressLines(cfg, sorted) + RecordLines(cfg, sorted))
    ensures var after := ReadLines(st, NSAddressLines(cfg, sorted) + RecordLines(cfg, sorted));
            Ready(after) && after.out.value == st.out.value + NSAddressRecords(cfg, sorted) + Meanings(cfg, sorted)
  {
    hide ReadLine, ReadLines, RecordLine, NSAddressRecords, NSAddressLines, Printable, RecordLines, Meanings;
    assert EnsureTrailingDot(cfg.origin) != "." by {
      if HasSuffix(cfg.origin, ".") {
        assert EnsureTrailingDot(cfg.origin) == cfg.origin;
      } else {
        assert |EnsureTrailingDot(cfg.origin)| >= 2;
      }
    }
    ReadNSAddress(st, cfg, sorted);
    var st1 := ReadLines(st, NSAddressLines(cfg, sorted));
    RecordsReadBack(cfg, st1, sorted);
    ReadAppend(st, NSAddressLines(cfg, sorted), RecordLines(cfg, sorted));
  }

  lemma {:induction false} HeaderAllLines(H: Hash, cfg: ZoneConfig, serial: nat, body: string, h: string)
    requires PrintableConfig(cfg) && IsHex64(h)
    ensures CleanConfig(cfg)
    ensures LineList(Controls(cfg, serial) + Comments(H, body, h) + RestOfHeader(cfg, serial))
  {
    assert CleanConfig(cfg);
    HeaderHasNoNewline(cfg, serial);
    CommentsAreStamps(H, body, h);
    JoinLists(Controls(cfg, serial), Comments(H, body, h), RestOfHeader(cfg, serial));
  }

  lemma {:induction false} JoinLists(a: seq<string>, b: seq<string>, c: seq<string>)
    requires LineList(a) && LineList(b) && LineList(c)
    ensures LineList(a + b + c)
  {
  }

  /**
   * Reading a published zone file gives back exactly its SOA and NS records, the name server's address if it is served
   * here, and the sanitised records, each with its absolute owner, its TTL, its type and its value.
   */
  lemma {:induction false} PrintedZoneReadsBack(H: Hash, cfg: ZoneConfig, serial: nat, records: seq<IPRecord>, h: string)
    requires PrintableConfig(cfg) && IsHex64(h)
    requires forall r :: r in records ==> Printable(cfg, r)
    ensures ReadZone(EnsureTrailingDot(cfg.origin), Published(H, cfg, serial, records, h))
         == Some([SOARecord(cfg, serial)] + [NSRecordRead(cfg)] + NSAddressRecords(cfg, records)
                 + Meanings(cfg, RecordOrder.Sort(records)))
    ensures multiset(Meanings(cfg, RecordOrder.Sort(records))) == multiset(Meanings(cfg, records))
  {
    hide ReadLine, ReadLines, RecordLine, NSAddressRecords, NSAddressLines, Printable, RecordLines, Meanings,
         PublishedLines, HeaderLines, Comments, Published, SOARecord, NSRecordRead, PrintableConfig, RecordOrder.Sort, Plain;
    SortedMeanings(cfg, records);
    HeaderAllLines(H, cfg, serial, Plain(cfg, serial, records), h);
    PublishedIsItsLines(H, cfg, serial, records, h);
    PublishedPieces(H, cfg, serial, records, h);
    WholeFileRead(H, cfg, serial, Plain(cfg, serial, records), h, RecordOrder.Sort(records));
  }

  function FileHead(H: Hash, cfg: ZoneConfig, serial: nat, body: string, h: string): seq<string> {
    Controls(cfg, serial) + Comments(H, body, h) + RestOfHeader(cfg, serial)
  }

  function FileTail(cfg: ZoneConfig, sorted: seq<IPRecord>): seq<string> {
    NSAddressLines(cfg, sorted) + RecordLines(cfg, sorted)
  }

  lemma {:induction false} HeaderState(st: State, cfg: ZoneConfig, serial: nat)
    requires Ready(st) && st.out.value == []
    ensures var st1 := AfterHeader(st, cfg, serial);
            && Ready(st1) && st1.origin == EnsureTrailingDot(cfg.origin) && st1.ttl == cfg.ttl
            && st1.out.value == [SOARecord(cfg, serial)] + [NSRecordRead(cfg)]
  {
    hide SOARecord, NSRecordRead, EnsureTrailingDot;
  }

  lemma {:induction false} WholeFileRead(H: Hash, cfg: ZoneConfig, serial: nat, body: string, h: string, sorted: seq<IPRecord>)
    requires PrintableConfig(cfg) && IsHex64(h)
    requires forall r :: r in sorted ==> Printable(cfg, r)
    ensures ReadZone(EnsureTrailingDot(cfg.origin), Unlines(FileHead(H, cfg, serial, body, h) + FileTail(cfg, sorted)))
            == Some([SOARecord(cfg, serial)] + [NSRecordRead(cfg)] + NSAddressRecords(cfg, sorted) + Meanings(cfg, sorted))
  {
    hide ReadLine, ReadLines, RecordLine, NSAddressRecords, NSAddressLines, Printable, RecordLines, Meanings,
         HeaderLines, Controls, RestOfHeader, Comments, SOARecord, NSRecordRead, PrintableConfig, AfterHeader, EnsureTrailingDot, ReadZone, Unlines;
    var o := EnsureTrailingDot(cfg.origin);
    var st := State(o, 0, o, false, [], Some([]));
    ReadHeader(H, cfg, serial, body, h, st);
    HeaderState(st, cfg, serial);
    var st1 := AfterHeader(st, cfg, serial);
    TailReads(cfg, st1, sorted);
    HeaderAllLines(H, cfg, serial, body, h);
    var tail := FileTail(cfg, sorted);
    EndOfFile(o, st, FileHead(H, cfg, serial, body, h), st1, tail, ReadLines(st1, tail));
  }

  lemma {:induction false} EndOfFile(o: string, st: State, head: seq<string>, st1: State, tail: seq<string>, st2: State)
    requires st == State(o, 0, o, false, [], Some([]))
    requires LineList(head) && LineList(tail)
    requires ReadLines(st, head) == st1 && ReadLines(st1, tail) == st2 && Ready(st2)
    ensures ReadZone(o, Unlines(head + tail)) == st2.out
  {
    hide ReadLine, ReadLines;
    ReadChain(st, head, st1, tail, st2);
    SplitUnlines(head + tail);
    ReadEmpty(st2);
    OneLineRead(st2);
    ReadChain(st, head + tail, st2, [""], st2);
  }

  lemma {:induction false} OneLineRead(st: State)
    ensures ReadLines(st, [""]) == ReadLine(st, "")
  {
    hide ReadLine;
    assert [""][1..] == [];
    assert ReadLines(ReadLine(st, ""), []) == ReadLine(st, "");
  }
}
