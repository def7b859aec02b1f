/**
 Reading the top `Route` entry: the header values split at commas, and the pattern
 `<\s*sips?:([^<>@;]+@)?([^<>@:;]+)(?::(\d+))?` searched for in each piece, ASCII letters in
 either case. The matcher below spells the pattern's one real choice out: a user part is tried
 first and given up when no host follows it.
 */
module RouteHeader {
  import opened Wrappers
  import opened Text

  datatype Target = Target(host: string, port: nat)

  /** The inbound INVITE, as the `Route` values it carries in wire order. */
  datatype Request = Request(routes: seq<string>)

  predicate UserChar(c: char) {
    c != '<' && c != '>' && c != '@' && c != ';'
  }

  predicate HostChar(c: char) {
    UserChar(c) && c != ':'
  }

  predicate NotComma(c: char) {
    c != ','
  }

  /** How many characters of `s` a greedy class takes. */
  function Span(s: string, p: char -> bool): (n: nat)
    ensures n <= |s| && (forall i :: 0 <= i < n ==> p(s[i])) && (n < |s| ==> !p(s[n]))
  {
    if s == [] || !p(s[0]) then 0
    else
      var m := Span(s[1..], p);
      assert forall i :: 0 < i < 1 + m ==> s[i] == s[1..][i - 1];
      1 + m
  }

  /** `([^<>@:;]+)(?::(\d+))?` at the start of `s`. */
  function MatchHost(s: string, defaultPort: nat): (r: Option<Target>)
    ensures r.Some? ==> r.value.host != [] && forall i :: 0 <= i < |r.value.host| ==> HostChar(r.value.host[i])
  {
    var n := Span(s, HostChar);
    if n == 0 then None
    else
      var rest := s[n..];
      var digits := if rest != [] && rest[0] == ':' then Span(rest[1..], IsDigit) else 0;
      Some(Target(s[..n], if digits > 0 then Number(rest[1..][..digits]) else defaultPort))
  }

  /** The same after an optional user part. */
  function MatchUserHost(s: string, defaultPort: nat): (r: Option<Target>)
    ensures r.Some? ==> r.value.host != [] && forall i :: 0 <= i < |r.value.host| ==> HostChar(r.value.host[i])
  {
    var n := Span(s, UserChar);
    if 0 < n < |s| && s[n] == '@' && MatchHost(s[n + 1..], defaultPort).Some? then MatchHost(s[n + 1..], defaultPort)
    else MatchHost(s, defaultPort)
  }

  predicate Same(c: char, lower: char)
    requires 'a' <= lower <= 'z'
  {
    c == lower || c == lower - 'a' + 'A'
  }

  /** What follows `<\s*sips?:` at the start of `s`, if it is there. */
  function MatchScheme(s: string): Option<string> {
    if s == [] || s[0] != '<' then None
    else
      var t := s[1..][Span(s[1..], IsSpace)..];
      if |t| < 4 || !Same(t[0], 's') || !Same(t[1], 'i') || !Same(t[2], 'p') then None
      else if t[3] == ':' then Some(t[4..])
      else if |t| > 4 && Same(t[3], 's') && t[4] == ':' then Some(t[5..])
      else None
  }

  function MatchAt(s: string, defaultPort: nat): Option<Target> {
    if MatchScheme(s).None? then None else MatchUserHost(MatchScheme(s).value, defaultPort)
  }

  /** `search`: the leftmost match. */
  function Search(s: string, defaultPort: nat): (r: Option<Target>)
    ensures r.Some? ==> forall i :: 0 <= i < |r.value.host| ==> HostChar(r.value.host[i])
  {
    if s == [] then None
    else if MatchAt(s, defaultPort).Some? then MatchAt(s, defaultPort)
    else Search(s[1..], defaultPort)
  }

  function ParseEntry(part: string, defaultPort: nat): Option<Target> {
    Search(Strip(part), defaultPort)
  }

  /** `raw.split(",")`. */
  function Split(s: string): (parts: seq<string>)
    ensures parts != []
  {
    if s == [] then [[]]
    else if s[0] == ',' then [[]] + Split(s[1..])
    else [[s[0]] + Split(s[1..])[0]] + Split(s[1..])[1..]
  }

  /** Every entry of every header row, in wire order. */
  function Entries(values: seq<string>): seq<string> {
    if values == [] then [] else Split(values[0]) + Entries(values[1..])
  }

  /** The first entry that parses. */
  function FirstTarget(parts: seq<string>, defaultPort: nat): Option<Target> {
    if parts == [] then None
    else if ParseEntry(parts[0], defaultPort).Some? then ParseEntry(parts[0], defaultPort)
    else FirstTarget(parts[1..], defaultPort)
  }

  method RouteHeaderValues(request: Request) returns (values: seq<string>)
    ensures values == request.routes
  {
    values := [];
    for i := 0 to |request.routes|
      invariant values == request.routes[..i]
    {
      values := values + [request.routes[i]];
    }
  }

  /** The host and port of the first entry that parses, in wire order over all header rows. */
  method ParseTopRouteTarget(request: Option<Request>, defaultPort: nat) returns (target: Option<Target>)
    ensures target == if request.None? then None else FirstTarget(Entries(request.value.routes), defaultPort)
  {
    if request.None? {
      return None;
    }
    var values := RouteHeaderValues(request.value);
    for i := 0 to |values|
      invariant FirstTarget(Entries(values), defaultPort) == FirstTarget(Entries(values[i..]), defaultPort)
    {
      var parts := Split(values[i]);
      assert values[i..][1..] == values[i + 1..];
      assert parts[0..] == parts;
      for j := 0 to |parts|
        invariant FirstTarget(Entries(values), defaultPort)
                  == FirstTarget(parts[j..] + Entries(values[i + 1..]), defaultPort)
      {
        assert (parts[j..] + Entries(values[i + 1..]))[1..] == parts[j + 1..] + Entries(values[i + 1..]);
        var found := ParseEntry(parts[j], defaultPort);
        if found.None? {
          continue;
        }
        return found;
      }
      assert parts[|parts|..] + Entries(values[i + 1..]) == Entries(values[i + 1..]);
    }
    return None;
  }

  /** Which entry that is: one that parses, with none before it that does. */
  lemma {:induction false} FirstTargetIsFirst(parts: seq<string>, defaultPort: nat)
    ensures FirstTarget(parts, defaultPort).None? <==>
            forall i :: 0 <= i < |parts| ==> ParseEntry(parts[i], defaultPort).None?
    ensures FirstTarget(parts, defaultPort).Some? ==>
              exists i :: 0 <= i < |parts| && ParseEntry(parts[i], defaultPort) == FirstTarget(parts, defaultPort)
                          && forall j :: 0 <= j < i ==> ParseEntry(parts[j], defaultPort).None?
  {
    if parts != [] {
      FirstTargetIsFirst(parts[1..], defaultPort);
      if ParseEntry(parts[0], defaultPort).None? {
        assert forall i :: 0 < i < |parts| ==> parts[i] == parts[1..][i - 1];
        if FirstTarget(parts, defaultPort).Some? {
          var i :| 0 <= i < |parts[1..]| && ParseEntry(parts[1..][i], defaultPort) == FirstTarget(parts, defaultPort)
                   && forall j :: 0 <= j < i ==> ParseEntry(parts[1..][j], defaultPort).None?;
          assert parts[i + 1] == parts[1..][i];
          assert forall j :: 0 < j < i + 1 ==> parts[j] == parts[1..][j - 1];
        }
      }
    }
  }

  // --- rows combine -------------------------------------------------------

  /** The single value that stands for several rows, RFC 3261 section 7.3.1. */
  function Joined(values: seq<string>): string {
    if values == [] then ""
    else if |values| == 1 then values[0]
    else values[0] + ("," + Joined(values[1..]))
  }

  /** What one more character in front does to the pieces of a split. */
  function Prepend(c: char, parts: seq<string>): seq<string>
    requires parts != []
  {
    if c == ',' then [[]] + parts else [[c] + parts[0]] + parts[1..]
  }

  lemma SplitCons(c: char, s: string)
    ensures Split([c] + s) == Prepend(c, Split(s))
  {
    assert ([c] + s)[1..] == s;
  }

  lemma PrependAcross(c: char, a: seq<string>, b: seq<string>)
    requires a != []
    ensures Prepend(c, a + b) == Prepend(c, a) + b
  {
    assert (a + b)[0] == a[0] && (a + b)[1..] == a[1..] + b;
  }

  lemma {:induction false} SplitAcross(a: string, b: string)
    ensures Split(a + ("," + b)) == Split(a) + Split(b)
  {
    if a == [] {
      assert a + ("," + b) == [','] + b;
      SplitCons(',', b);
    } else {
      SplitAcross(a[1..], b);
      assert a + ("," + b) == [a[0]] + (a[1..] + ("," + b)) && a == [a[0]] + a[1..];
      SplitCons(a[0], a[1..] + ("," + b));
      SplitCons(a[0], a[1..]);
      PrependAcross(a[0], Split(a[1..]), Split(b));
    }
  }

  lemma {:induction false} SplitJoined(values: seq<string>)
    requires values != []
    ensures Split(Joined(values)) == Entries(values)
  {
    if |values| == 1 {
      assert Entries(values[1..]) == [];
    } else {
      SplitAcross(values[0], Joined(values[1..]));
      SplitJoined(values[1..]);
    }
  }

  lemma EntriesOfOne(value: string)
    ensures Entries([value]) == Split(value)
  {
    assert [value][1..] == [];
    assert Split(value) + [] == Split(value);
  }

  /** However the entries are spread over header rows, the target is the same. */
  lemma RowsCombine(values: seq<string>, defaultPort: nat)
    ensures FirstTarget(Entries(values), defaultPort) == FirstTarget(Entries([Joined(values)]), defaultPort)
  {
    EntriesOfOne(Joined(values));
    if values == [] {
      assert Split("") == [""];
      assert FirstTarget([""], defaultPort) == FirstTarget([""][1..], defaultPort);
    } else {
      SplitJoined(values);
    }
  }

  // --- what is read of one entry ------------------------------------------

  /** A text the pattern's classes take stops where the next character is none of theirs. */
  lemma {:induction false} SpanAcross(t: string, rest: string, p: char -> bool)
    requires rest != [] ==> !p(rest[0])
    ensures Span(t + rest, p) == Span(t, p)
  {
    if t == [] {
      assert t + rest == rest;
    } else {
      SpanAcross(t[1..], rest, p);
      assert (t + rest)[1..] == t[1..] + rest;
    }
  }

  lemma SpanOf(t: string, rest: string, p: char -> bool)
    requires forall i :: 0 <= i < |t| ==> p(t[i])
    requires rest != [] ==> !p(rest[0])
    ensures Span(t + rest, p) == |t|
  {
    SpanAcross(t, rest, p);
  }

  predicate NoComma(s: string) {
    forall i :: 0 <= i < |s| ==> NotComma(s[i])
  }

  lemma {:induction false} SplitWhole(s: string)
    requires NoComma(s)
    ensures Split(s) == [s]
  {
    if s != [] {
      SplitWhole(s[1..]);
      assert [s[0]] + s[1..] == s && Split(s[1..])[1..] == [];
    }
  }

  /** Nothing is found where no entry opens. */
  lemma {:induction false} NoBracketNoMatch(s: string, defaultPort: nat)
    requires '<' !in s
    ensures Search(s, defaultPort).None?
  {
    if s != [] {
      assert s == [s[0]] + s[1..];
      NoBracketNoMatch(s[1..], defaultPort);
    }
  }

  lemma {:induction false} StripLeftHas(s: string, c: char)
    ensures c in StripLeft(s) ==> c in s
  {
    if s != [] && IsSpace(s[0]) {
      assert s == [s[0]] + s[1..];
      StripLeftHas(s[1..], c);
    }
  }

  lemma {:induction false} StripRightPrefix(s: string)
    ensures StripRight(s) <= s
  {
    if s != [] && IsSpace(s[|s| - 1]) {
      StripRightPrefix(s[..|s| - 1]);
    }
  }

  lemma {:induction false} StripRightAcross(a: string, c: char, b: string)
    requires !IsSpace(c)
    ensures StripRight(a + ([c] + b)) == a + ([c] + StripRight(b))
  {
    var s := a + ([c] + b);
    if b == [] {
      assert s[|s| - 1] == c;
    } else if IsSpace(b[|b| - 1]) {
      assert s[|s| - 1] == b[|b| - 1] && s[..|s| - 1] == a + ([c] + b[..|b| - 1]);
      StripRightAcross(a, c, b[..|b| - 1]);
    } else {
      assert s[|s| - 1] == b[|b| - 1];
    }
  }

  lemma {:induction false} SplitHas(s: string, c: char, i: nat)
    requires i < |Split(s)| && c in Split(s)[i]
    ensures c in s
  {
    assert s != [];
    assert s == [s[0]] + s[1..];
    var rest := Split(s[1..]);
    if s[0] == ',' {
      assert i > 0 && Split(s)[i] == rest[i - 1];
      SplitHas(s[1..], c, i - 1);
    } else if i > 0 {
      assert Split(s)[i] == rest[1..][i - 1] == rest[i];
      SplitHas(s[1..], c, i);
    } else if c != s[0] {
      assert Split(s)[0] == [s[0]] + rest[0];
      SplitHas(s[1..], c, 0);
    }
  }

  lemma NothingParses(s: string, defaultPort: nat)
    requires '<' !in s
    ensures FirstTarget(Split(s), defaultPort).None?
  {
    var parts := Split(s);
    forall i | 0 <= i < |parts| ensures ParseEntry(parts[i], defaultPort).None? {
      if '<' in parts[i] {
        SplitHas(s, '<', i);
      } else {
        StripLeftHas(parts[i], '<');
        StripRightPrefix(StripLeft(parts[i]));
        NoBracketNoMatch(Strip(parts[i]), defaultPort);
      }
    }
    FirstTargetIsFirst(parts, defaultPort);
  }

  lemma SchemeReads(rest: string)
    ensures MatchScheme("<sip:" + rest) == Some(rest)
  {
    var s := "<sip:" + rest;
    assert s[1..] == "sip:" + rest;
    assert !IsSpace(s[1..][0]);
    assert s[1..][0..] == s[1..] && s[1..][4..] == rest;
  }

  lemma SearchOpen(rest: string, defaultPort: nat)
    requires '<' !in rest
    ensures Search("<sip:" + rest, defaultPort) == MatchUserHost(rest, defaultPort)
  {
    var s := "<sip:" + rest;
    SchemeReads(rest);
    assert s[1..] == "sip:" + rest;
    assert '<' !in s[1..];
    NoBracketNoMatch(s[1..], defaultPort);
  }

  lemma StripOpen(rest: string)
    ensures Strip("<sip:" + rest) == "<sip:" + StripRight(rest)
  {
    var s, open := "<sip:" + rest, "<sip";
    assert s == open + ([':'] + rest) && "<sip:" + StripRight(rest) == open + ([':'] + StripRight(rest));
    StripRightAcross(open, ':', rest);
    assert s[0] == '<';
  }

  lemma OpenEntryReads(rest: string, defaultPort: nat)
    requires '<' !in rest
    ensures ParseEntry("<sip:" + rest, defaultPort) == MatchUserHost(StripRight(rest), defaultPort)
  {
    StripOpen(rest);
    StripRightPrefix(rest);
    SearchOpen(StripRight(rest), defaultPort);
  }

  lemma PieceReads(piece: string, more: seq<string>, defaultPort: nat)
    requires FirstTarget(more, defaultPort).None?
    ensures FirstTarget([piece] + more, defaultPort) == ParseEntry(piece, defaultPort)
  {
    assert ([piece] + more)[1..] == more;
  }

  /** A value without a comma is one piece. */
  lemma WholePiece(piece: string, defaultPort: nat)
    requires NoComma(piece)
    ensures FirstTarget(Entries([piece]), defaultPort) == ParseEntry(piece, defaultPort)
  {
    EntriesOfOne(piece);
    SplitWhole(piece);
    PieceReads(piece, [], defaultPort);
    assert [piece] + [] == [piece];
  }

  /** No piece behind the first comma is read when no entry opens there. */
  lemma FirstPiece(piece: string, tail: string, defaultPort: nat)
    requires NoComma(piece) && '<' !in tail
    ensures FirstTarget(Entries([piece + ("," + tail)]), defaultPort) == ParseEntry(piece, defaultPort)
  {
    EntriesOfOne(piece + ("," + tail));
    SplitAcross(piece, tail);
    SplitWhole(piece);
    NothingParses(tail, defaultPort);
    PieceReads(piece, Split(tail), defaultPort);
  }

  lemma NoCommaAcross(a: string, b: string)
    requires NoComma(a) && NoComma(b)
    ensures NoComma(a + b)
  {
  }

  /** What stands behind the first comma opens no entry, so that it is never read. */
  lemma CutAtComma(scheme: string, rest: string, defaultPort: nat)
    requires NoComma(scheme) && '<' !in rest
    ensures FirstTarget(Entries([scheme + rest]), defaultPort)
            == ParseEntry(scheme + rest[..Span(rest, NotComma)], defaultPort)
  {
    var n := Span(rest, NotComma);
    var name := rest[..n];
    NoCommaAcross(scheme, name);
    if n == |rest| {
      assert rest == name;
      WholePiece(scheme + name, defaultPort);
    } else {
      assert scheme + rest == (scheme + name) + ("," + rest[n + 1..]);
      FirstPiece(scheme + name, rest[n + 1..], defaultPort);
    }
  }

  /** Of an entry only what stands before its first comma is ever read. */
  lemma EntryReadsAs(rest: string, defaultPort: nat)
    requires '<' !in rest
    ensures FirstTarget(Entries(["<sip:" + rest]), defaultPort)
            == MatchUserHost(StripRight(rest[..Span(rest, NotComma)]), defaultPort)
  {
    CutAtComma("<sip:", rest, defaultPort);
    OpenEntryReads(rest[..Span(rest, NotComma)], defaultPort);
  }

  /** A character that ends neither the pattern's user part nor the entry. */
  predicate NameChar(c: char) {
    UserChar(c) && NotComma(c)
  }

  lemma PortStops(port: string, rest: string)
    ensures var n := Span(port, IsDigit);
            Span(port + ([';'] + rest), IsDigit) == n && (port + ([';'] + rest))[..n] == port[..n]
  {
    SpanAcross(port, [';'] + rest, IsDigit);
  }

  lemma HostStops(name: string, rest: string, defaultPort: nat)
    requires forall i :: 0 <= i < |name| ==> UserChar(name[i])
    ensures MatchHost(name + ([';'] + rest), defaultPort) == MatchHost(name, defaultPort)
  {
    var s, n := name + ([';'] + rest), Span(name, HostChar);
    SpanAcross(name, [';'] + rest, HostChar);
    assert s[..n] == name[..n];
    if n < |name| {
      assert name[n] == ':';
      assert s[n..][1..] == name[n..][1..] + ([';'] + rest);
      PortStops(name[n..][1..], rest);
    } else {
      assert s[n..] == [';'] + rest;
    }
  }

  lemma NoUserReads(name: string, defaultPort: nat)
    requires forall i :: 0 <= i < |name| ==> UserChar(name[i])
    ensures MatchUserHost(name, defaultPort) == MatchHost(name, defaultPort)
  {
    assert name + [] == name;
    SpanOf(name, [], UserChar);
  }

  lemma CommaReads(name: string, tail: string, defaultPort: nat)
    requires forall i :: 0 <= i < |name| ==> NameChar(name[i])
    requires '<' !in tail
    ensures FirstTarget(Entries(["<sip:" + (name + ([','] + tail))]), defaultPort)
            == MatchHost(StripRight(name), defaultPort)
  {
    var rest := name + ([','] + tail);
    EntryReadsAs(rest, defaultPort);
    SpanOf(name, [','] + tail, NotComma);
    assert rest[..|name|] == name;
    StripRightPrefix(name);
    NoUserReads(StripRight(name), defaultPort);
  }

  lemma UserStops(name: string, more: string, defaultPort: nat)
    requires forall i :: 0 <= i < |name| ==> UserChar(name[i])
    ensures MatchUserHost(name + ([';'] + more), defaultPort) == MatchHost(name, defaultPort)
  {
    var s := name + ([';'] + more);
    SpanOf(name, [';'] + more, UserChar);
    assert s[|name|] == ';';
    HostStops(name, more, defaultPort);
  }

  lemma BlanksBehindSemicolon(name: string, tail: string)
    requires NoComma(name)
    ensures var rest := name + ([';'] + tail);
            exists more :: StripRight(rest[..Span(rest, NotComma)]) == name + ([';'] + more)
  {
    var rest := name + ([';'] + tail);
    var n := Span(rest, NotComma);
    assert n > |name| by {
      assert n < |rest| ==> !NotComma(rest[n]);
    }
    var more := rest[|name| + 1..n];
    assert rest[..n] == name + ([';'] + more);
    StripRightAcross(name, ';', more);
  }

  lemma SemicolonReads(name: string, tail: string, defaultPort: nat)
    requires forall i :: 0 <= i < |name| ==> NameChar(name[i])
    requires '<' !in tail
    ensures FirstTarget(Entries(["<sip:" + (name + ([';'] + tail))]), defaultPort)
            == MatchHost(name, defaultPort)
  {
    var rest := name + ([';'] + tail);
    EntryReadsAs(rest, defaultPort);
    BlanksBehindSemicolon(name, tail);
    var more :| StripRight(rest[..Span(rest, NotComma)]) == name + ([';'] + more);
    UserStops(name, more, defaultPort);
  }

  // --- the pattern, part by part ------------------------------------------

  function Lowered(c: char): char {
    if 'A' <= c <= 'Z' then c - 'A' + 'a' else c
  }

  /** `sip:` or `sips:`, in either case. */
  ghost predicate IsScheme(x: string) {
    || (|x| == 4 && Lowered(x[0]) == 's' && Lowered(x[1]) == 'i' && Lowered(x[2]) == 'p' && x[3] == ':')
    || (|x| == 5 && Lowered(x[0]) == 's' && Lowered(x[1]) == 'i' && Lowered(x[2]) == 'p' && Lowered(x[3]) == 's'
        && x[4] == ':')
  }

  /** An entry opens with a bracket, any blanks and one of the schemes, and only so. */
  ghost predicate Opens(s: string, blank: string, scheme: string, rest: string) {
    AllSpace(blank) && IsScheme(scheme) && s == "<" + (blank + (scheme + rest))
  }

  lemma SchemeReadsIff(s: string, rest: string)
    ensures MatchScheme(s) == Some(rest) <==> exists blank, scheme :: Opens(s, blank, scheme, rest)
  {
    if MatchScheme(s) == Some(rest) {
      var n := Span(s[1..], IsSpace);
      var blank, t := s[1..][..n], s[1..][n..];
      var scheme := if t[3] == ':' then t[..4] else t[..5];
      assert t == scheme + rest && s == "<" + (blank + (scheme + rest));
      assert Opens(s, blank, scheme, rest);
    }
    if blank, scheme :| Opens(s, blank, scheme, rest) {
      OpenReads(s, blank, scheme, rest);
    }
  }

  lemma OpenReads(s: string, blank: string, scheme: string, rest: string)
    requires Opens(s, blank, scheme, rest)
    ensures MatchScheme(s) == Some(rest)
  {
    var t := scheme + rest;
    assert s[1..] == blank + t && t[0] == scheme[0] && !IsSpace(t[0]);
    SpanOf(blank, t, IsSpace);
    assert s[1..][|blank|..] == t;
    assert forall i :: 0 <= i < |scheme| ==> t[i] == scheme[i];
    assert t[|scheme|..] == rest;
  }

  /** The host: all the characters the class takes, at least one. */
  ghost predicate HostGroup(s: string, host: string) {
    && host != [] && host <= s && (forall i :: 0 <= i < |host| ==> HostChar(host[i]))
    && (|host| < |s| ==> !HostChar(s[|host|]))
  }

  /** The port: a colon and all the digits behind it, at least one. */
  ghost predicate PortGroup(s: string, digits: string) {
    && digits != [] && [':'] + digits <= s && (forall i :: 0 <= i < |digits| ==> IsDigit(digits[i]))
    && (1 + |digits| < |s| ==> !IsDigit(s[1 + |digits|]))
  }

  lemma HostReadsIff(s: string, host: string, port: nat, defaultPort: nat)
    ensures MatchHost(s, defaultPort) == Some(Target(host, port)) <==>
            && HostGroup(s, host)
            && ((exists digits :: PortGroup(s[|host|..], digits) && port == Number(digits))
                || ((forall digits :: !PortGroup(s[|host|..], digits)) && port == defaultPort))
  {
    var n := Span(s, HostChar);
    if HostGroup(s, host) {
      assert host == s[..n];
    }
    if n > 0 {
      assert HostGroup(s, s[..n]);
      PortReads(s[n..], defaultPort);
    }
  }

  lemma PortReads(rest: string, defaultPort: nat)
    ensures var n := if rest != [] && rest[0] == ':' then Span(rest[1..], IsDigit) else 0;
            && (n > 0 ==> PortGroup(rest, rest[1..][..n]))
            && forall digits :: PortGroup(rest, digits) ==> n > 0 && digits == rest[1..][..n]
  {
    var n := if rest != [] && rest[0] == ':' then Span(rest[1..], IsDigit) else 0;
    if n > 0 {
      assert [':'] + rest[1..][..n] == rest[..n + 1];
    }
    forall digits | PortGroup(rest, digits) ensures n > 0 && digits == rest[1..][..n] {
      assert rest[0] == ([':'] + digits)[0] == ':';
      assert forall i :: 0 <= i < |digits| ==> rest[1..][i] == ([':'] + digits)[i + 1] == digits[i];
      assert rest[1..] == digits + rest[1..][|digits|..];
      SpanOf(digits, rest[1..][|digits|..], IsDigit);
      assert rest[1..][..|digits|] == digits;
    }
  }

  /** A user part counts only when an `@` ends it and a host can follow. */
  ghost predicate UserGroup(s: string, n: nat) {
    0 < n < |s| - 1 && (forall i :: 0 <= i < n ==> UserChar(s[i])) && s[n] == '@' && HostChar(s[n + 1])
  }

  lemma UserGroupIsSpan(s: string, n: nat, defaultPort: nat)
    requires UserGroup(s, n)
    ensures Span(s, UserChar) == n && MatchHost(s[n + 1..], defaultPort).Some?
  {
    assert s == s[..n] + s[n..];
    SpanOf(s[..n], s[n..], UserChar);
    assert s[n + 1..][0] == s[n + 1];
  }

  lemma UserReadsIff(s: string, defaultPort: nat)
    ensures forall n: nat :: UserGroup(s, n) ==> MatchUserHost(s, defaultPort) == MatchHost(s[n + 1..], defaultPort)
    ensures (forall n: nat :: !UserGroup(s, n)) ==> MatchUserHost(s, defaultPort) == MatchHost(s, defaultPort)
  {
    var m := Span(s, UserChar);
    forall n: nat | UserGroup(s, n) ensures m == n && MatchHost(s[n + 1..], defaultPort).Some? {
      UserGroupIsSpan(s, n, defaultPort);
    }
    if 0 < m < |s| && s[m] == '@' && MatchHost(s[m + 1..], defaultPort).Some? {
      assert s[m + 1..][0] == s[m + 1];
      assert UserGroup(s, m);
    }
  }

  /** The search finds the leftmost place where the pattern matches, and none only if there is none. */
  lemma {:induction false} SearchIsLeftmost(s: string, defaultPort: nat)
    ensures Search(s, defaultPort).None? <==>
            forall i :: 0 <= i <= |s| ==> MatchAt(s[i..], defaultPort).None?
    ensures Search(s, defaultPort).Some? ==>
              exists i :: 0 <= i <= |s| && MatchAt(s[i..], defaultPort) == Search(s, defaultPort)
                          && forall j :: 0 <= j < i ==> MatchAt(s[j..], defaultPort).None?
  {
    assert s[0..] == s;
    if s == [] {
      assert forall i :: 0 <= i <= |s| ==> s[i..] == [];
    } else {
      SearchIsLeftmost(s[1..], defaultPort);
      assert forall i :: 0 < i <= |s| ==> s[i..] == s[1..][i - 1..];
      if MatchAt(s, defaultPort).None? && Search(s, defaultPort).Some? {
        var i :| 0 <= i <= |s[1..]| && MatchAt(s[1..][i..], defaultPort) == Search(s[1..], defaultPort)
                 && forall j :: 0 <= j < i ==> MatchAt(s[1..][j..], defaultPort).None?;
        assert s[i + 1..] == s[1..][i..];
        forall j | 0 <= j < i + 1 ensures MatchAt(s[j..], defaultPort).None? {
          assert j > 0 ==> s[j..] == s[1..][j - 1..];
        }
      }
    }
  }

  // --- round trip ---------------------------------------------------------

  function Suffix(port: Option<nat>): string {
    (if port.Some? then ":" + Decimal(port.value) else "") + ";lr>"
  }

  /** What follows the scheme of `<sip:[user@]host[:port];lr>`. */
  function Address(user: Option<string>, host: string, port: Option<nat>): string {
    (if user.Some? then user.value + "@" else "") + (host + Suffix(port))
  }

  /** `<sip:[user@]host[:port];lr>`. */
  function Printed(user: Option<string>, host: string, port: Option<nat>): string {
    "<sip:" + Address(user, host, port)
  }

  /** A name without the pattern's delimiters or the row separator. */
  predicate Plain(s: string) {
    s != [] && forall i :: 0 <= i < |s| ==> NameChar(s[i])
  }

  /** A user part that opens and closes nothing; commas, semicolons and colons are allowed. */
  predicate UserPart(s: string) {
    '<' !in s && '>' !in s && '@' !in s
  }

  /** Where the reader stops in a user part: at its first comma or semicolon, if it has one. */
  function Cut(user: string): (n: nat)
    ensures n <= |user|
  {
    Span(user, NameChar)
  }

  /** What it has read there. A comma ends the entry, so that blanks before one are stripped. */
  function Misread(user: string): string
    requires Cut(user) < |user|
  {
    var name := user[..Cut(user)];
    if user[Cut(user)] == ',' then StripRight(name) else name
  }

  lemma SuffixChars(port: Option<nat>)
    ensures forall i :: 0 <= i < |Suffix(port)| ==> Suffix(port)[i] != ',' && Suffix(port)[i] != '<'
    ensures Suffix(port)[|Suffix(port)| - 1] == '>'
  {
    if port.Some? {
      assert forall i :: 0 <= i < |Decimal(port.value)| ==> IsDigit(Decimal(port.value)[i]);
    }
  }

  /** An entry with a comma or a semicolon in its user part is read up to there. */
  lemma CutUserReads(user: string, host: string, port: Option<nat>, defaultPort: nat)
    requires UserPart(user) && Cut(user) < |user| && '<' !in host
    ensures FirstTarget(Entries([Printed(Some(user), host, port)]), defaultPort)
            == MatchHost(Misread(user), defaultPort)
  {
    var n := Cut(user);
    var name, stop, tail := user[..n], user[n], user[n + 1..] + ("@" + (host + Suffix(port)));
    assert stop in user && !NameChar(stop);
    SuffixChars(port);
    assert Address(Some(user), host, port) == name + ([stop] + tail);
    if stop == ',' {
      CommaReads(name, tail, defaultPort);
    } else {
      SemicolonReads(name, tail, defaultPort);
    }
  }

  lemma HostReads(host: string, port: Option<nat>, defaultPort: nat)
    requires Plain(host) && ':' !in host
    ensures MatchHost(host + Suffix(port), defaultPort)
            == Some(Target(host, if port.Some? then port.value else defaultPort))
  {
    var s, rest := host + Suffix(port), Suffix(port);
    SpanOf(host, rest, HostChar);
    assert s[..|host|] == host && s[|host|..] == rest;
    if port.Some? {
      var digits := Decimal(port.value);
      assert rest[1..] == digits + ";lr>";
      SpanOf(digits, ";lr>", IsDigit);
      assert rest[1..][..|digits|] == digits;
      NumberOfDecimal(port.value);
    }
  }

  lemma UserHostReads(user: string, host: string, port: Option<nat>, defaultPort: nat)
    requires Plain(host) && ':' !in host && Plain(user)
    ensures MatchUserHost(user + "@" + (host + Suffix(port)), defaultPort)
            == Some(Target(host, if port.Some? then port.value else defaultPort))
  {
    var tail := host + Suffix(port);
    var rest := user + "@" + tail;
    HostReads(host, port, defaultPort);
    assert rest == user + ("@" + tail);
    SpanOf(user, "@" + tail, UserChar);
    assert rest[|user| + 1..] == tail && rest[|user|] == '@';
  }

  lemma HostAloneReads(host: string, port: Option<nat>, defaultPort: nat)
    requires Plain(host) && ':' !in host
    ensures MatchUserHost(host + Suffix(port), defaultPort)
            == Some(Target(host, if port.Some? then port.value else defaultPort))
  {
    var rest := host + Suffix(port);
    HostReads(host, port, defaultPort);
    var before := host + if port.Some? then ":" + Decimal(port.value) else "";
    assert rest == before + ";lr>";
    SpanOf(before, ";lr>", UserChar);
  }

  lemma EmptyUserReads(tail: string, defaultPort: nat)
    ensures MatchUserHost("" + "@" + tail, defaultPort).None?
  {
    var s := "" + "@" + tail;
    assert s[0] == '@' && Span(s, UserChar) == 0 && Span(s, HostChar) == 0;
  }

  lemma AddressChars(user: Option<string>, host: string, port: Option<nat>)
    requires Plain(host) && (user.Some? ==> UserPart(user.value) && Cut(user.value) == |user.value|)
    ensures var rest := Address(user, host, port);
            && rest != [] && rest[|rest| - 1] == '>' && '<' !in rest
            && forall i :: 0 <= i < |rest| ==> NotComma(rest[i])
  {
    var name := if user.Some? then user.value + "@" else "";
    SuffixChars(port);
    assert forall i :: 0 <= i < |name| ==> name[i] != ',' && name[i] != '<';
    assert Address(user, host, port) == name + (host + Suffix(port));
  }

  /** With no comma or semicolon before the `@` all of the entry is read. */
  lemma WholeReads(user: Option<string>, host: string, port: Option<nat>, defaultPort: nat)
    requires Plain(host) && (user.Some? ==> UserPart(user.value) && Cut(user.value) == |user.value|)
    ensures FirstTarget(Entries([Printed(user, host, port)]), defaultPort)
            == MatchUserHost(Address(user, host, port), defaultPort)
  {
    var rest := Address(user, host, port);
    AddressChars(user, host, port);
    assert rest + [] == rest;
    SpanOf(rest, [], NotComma);
    assert rest[..|rest|] == rest;
    EntryReadsAs(rest, defaultPort);
  }

  /**
   A printed entry is read back, host and port or the default port, exactly when its host has
   no colon and its user part, if any, is not empty and has no comma or semicolon; or has one,
   and what stands before the first of them happens to read as the same host and port.
   */
  lemma PrintedEntryReadsBackIff(user: Option<string>, host: string, port: Option<nat>, defaultPort: nat)
    requires Plain(host) && (user.Some? ==> UserPart(user.value))
    ensures var target := Target(host, if port.Some? then port.value else defaultPort);
            FirstTarget(Entries([Printed(user, host, port)]), defaultPort) == Some(target)
            <==>
            && ':' !in host
            && (user.Some? ==>
                  if Cut(user.value) == |user.value| then user.value != ""
                  else MatchHost(Misread(user.value), defaultPort) == Some(target))
  {
    if user.Some? && Cut(user.value) < |user.value| {
      CutUserReads(user.value, host, port, defaultPort);
    } else {
      WholeReads(user, host, port, defaultPort);
      if user.Some? && user.value == "" {
        EmptyUserReads(host + Suffix(port), defaultPort);
      } else if ':' !in host {
        if user.Some? {
          UserHostReads(user.value, host, port, defaultPort);
        } else {
          assert Address(user, host, port) == host + Suffix(port);
          HostAloneReads(host, port, defaultPort);
        }
      }
    }
    if ':' in host {
      var i :| 0 <= i < |host| && host[i] == ':';
      assert !HostChar(host[i]);
    }
  }

  lemma BareHostReads(a: string, defaultPort: nat)
    requires Plain(a) && ':' !in a
    ensures MatchHost(a, defaultPort) == Some(Target(a, defaultPort))
  {
    assert a == a + [];
    SpanOf(a, [], HostChar);
    assert a[..|a|] == a && a[|a|..] == [];
  }

  /** A text before a semicolon is taken for the host wherever it would do for one. */
  lemma SemicolonInUserIsMisread(a: string, b: string, host: string, port: Option<nat>, defaultPort: nat)
    requires Plain(a) && ':' !in a && '<' !in b && '<' !in host
    ensures FirstTarget(Entries([Printed(Some(a + (";" + b)), host, port)]), defaultPort)
            == Some(Target(a, defaultPort))
  {
    var tail := b + ("@" + (host + Suffix(port)));
    SuffixChars(port);
    assert Address(Some(a + (";" + b)), host, port) == a + ([';'] + tail);
    SemicolonReads(a, tail, defaultPort);
    BareHostReads(a, defaultPort);
  }

  /** Before a comma, the text is parsed as an entry of its own, whatever follows it. */
  lemma CommaInUserCutsTheEntry(a: string, b: string, host: string, port: Option<nat>, defaultPort: nat)
    requires forall i :: 0 <= i < |a| ==> NameChar(a[i])
    requires '<' !in b && '<' !in host
    ensures FirstTarget(Entries([Printed(Some(a + ("," + b)), host, port)]), defaultPort)
            == ParseEntry("<sip:" + a, defaultPort)
  {
    var tail := b + ("@" + (host + Suffix(port)));
    SuffixChars(port);
    assert Address(Some(a + ("," + b)), host, port) == a + ([','] + tail);
    CommaReads(a, tail, defaultPort);
    OpenEntryReads(a, defaultPort);
    StripRightPrefix(a);
    NoUserReads(StripRight(a), defaultPort);
  }

  /** So it is taken for the host there too. */
  lemma CommaInUserIsMisread(a: string, b: string, host: string, port: Option<nat>, defaultPort: nat)
    requires Plain(a) && ':' !in a && !IsSpace(a[|a| - 1]) && '<' !in b && '<' !in host
    ensures FirstTarget(Entries([Printed(Some(a + ("," + b)), host, port)]), defaultPort)
            == Some(Target(a, defaultPort))
  {
    CommaInUserCutsTheEntry(a, b, host, port, defaultPort);
    OpenEntryReads(a, defaultPort);
    NoUserReads(a, defaultPort);
    BareHostReads(a, defaultPort);
  }
}
