/**
 The MTA-STS policy parser and the policy and report it prints (internal/mta-sts.go:168-354),
 after sections 3.1 and 3.2 of RFC 8461. Strings hold bytes.
 */
module MtaSts {
  import opened Options
  import opened Text
  import opened DnsName

  const MAX_AGE: nat := 31557600
  const MAX_POLICY_SIZE: nat := 65536

  // ---------- fields ----------

  datatype Field = Field(key: string, val: string)

  /** A line as key and value; none for a blank line or one without a colon. */
  function FieldOf(line: string): Option<Field> {
    var text := TrimRight(line, IsBlank);
    var colon := IndexOf(text, ':');
    if text == "" || colon == |text| then None
    else Some(Field(text[..colon], TrimLeft(text[colon + 1..], IsBlank)))
  }

  datatype Kind = Version | Mx | Mode | MaxAge | Extension

  function KindOf(key: string): Kind {
    if key == "version" then Version
    else if key == "mx" then Mx
    else if key == "mode" then Mode
    else if key == "max_age" then MaxAge
    else Extension
  }

  predicate ExtensionName(s: string) {
    && 1 <= |s| <= 32 && IsAlphanum(s[0])
    && forall i :: 1 <= i < |s| ==> IsAlphanum(s[i]) || s[i] == '_' || s[i] == '-' || s[i] == '.'
  }

  /** Length in bytes of the well-formed UTF-8 character at the start of `s`; 0 if there is none. */
  function RuneSize(s: string): (n: nat)
    ensures n <= |s| && n <= 4
  {
    if s == "" then 0
    else
      var b := s[0] as int;
      if b < 0x80 then 1
      else if 0xC2 <= b <= 0xDF then if Tail(s, 1, 0x80, 0xBF) then 2 else 0
      else if b == 0xE0 then if Tail(s, 1, 0xA0, 0xBF) && Tail(s, 2, 0x80, 0xBF) then 3 else 0
      else if b == 0xED then if Tail(s, 1, 0x80, 0x9F) && Tail(s, 2, 0x80, 0xBF) then 3 else 0
      else if 0xE1 <= b <= 0xEF then if Tail(s, 1, 0x80, 0xBF) && Tail(s, 2, 0x80, 0xBF) then 3 else 0
      else if b == 0xF0 then if Tail(s, 1, 0x90, 0xBF) && Tail(s, 2, 0x80, 0xBF) && Tail(s, 3, 0x80, 0xBF) then 4 else 0
      else if 0xF1 <= b <= 0xF3 then if Tail(s, 1, 0x80, 0xBF) && Tail(s, 2, 0x80, 0xBF) && Tail(s, 3, 0x80, 0xBF) then 4 else 0
      else if b == 0xF4 then if Tail(s, 1, 0x80, 0x8F) && Tail(s, 2, 0x80, 0xBF) && Tail(s, 3, 0x80, 0xBF) then 4 else 0
      else 0
  }

  predicate Tail(s: string, i: nat, lo: int, hi: int) {
    i < |s| && lo <= s[i] as int <= hi
  }

  /** Printable ASCII and spaces, or characters from U+00A0 on. */
  predicate ExtensionText(s: string)
    decreases |s|
  {
    var n := RuneSize(s);
    s == "" || (n != 0
                && (n == 1 ==> 0x20 <= s[0] as int <= 0x7e)
                && !(s[0] as int == 0xC2 && Tail(s, 1, 0x80, 0x9F))
                && ExtensionText(s[n..]))
  }

  predicate ExtensionValue(s: string) { s != "" && ExtensionText(s) }

  predicate MaxAgeDigits(s: string) {
    1 <= |s| <= 10 && forall i :: 0 <= i < |s| ==> IsDigit(s[i])
  }

  function CappedAge(val: string): nat {
    if Decimal(val) > MAX_AGE then MAX_AGE else Decimal(val)
  }

  predicate MxPattern(val: string, isIp: string -> bool) {
    if HasPrefix(val, "*.") then IsDnsName(val[2..], isIp) else IsDnsName(val, isIp)
  }

  /** The pattern as it is matched: lower case, without the star of a wildcard. */
  function MatchPattern(val: string): string {
    var lower := Lower(val);
    if HasPrefix(lower, "*.") then lower[1..] else lower
  }

  /** The value is acceptable for its key. */
  predicate FieldOk(f: Field, isIp: string -> bool) {
    ValueOk(f, KindOf(f.key), isIp)
  }

  predicate ValueOk(f: Field, kind: Kind, isIp: string -> bool) {
    match kind
    case Version => f.val == "STSv1"
    case Mx => MxPattern(f.val, isIp)
    case Mode => f.val == "enforce" || f.val == "testing" || f.val == "none"
    case MaxAge => MaxAgeDigits(f.val)
    case Extension => ExtensionName(f.key) && ExtensionValue(f.val)
  }

  // ---------- the parser ----------

  datatype Parser = Parser(
    existingKeys: set<string>,
    mode: string,
    report: string,
    mxHosts: string,
    mxServers: seq<string>,
    maxAge: nat,
    hasMaxAge: bool,
    hasMode: bool,
    hasVersion: bool)

  const NEW_PARSER := Parser({}, "", "", "", [], 0, false, false, false)

  predicate HasBraces(s: string) { '{' in s || '}' in s }

  function ReportField(f: Field): string {
    " { policy_string = " + f.key + ": " + f.val + " }"
  }

  /** A later occurrence of a key that counts only once. */
  predicate Repeated(f: Field, seen: set<string>) {
    !KindOf(f.key).Mx? && f.key in seen
  }

  /** Extension values with braces would spoil the report syntax and are left out of it. */
  predicate Reportable(f: Field) { InReport(f, KindOf(f.key)) }

  predicate InReport(f: Field, kind: Kind) { !(kind.Extension? && HasBraces(f.val)) }

  /** The state after a field that counts. */
  function Applied(p: Parser, f: Field): Parser {
    AppliedAs(p, f, KindOf(f.key))
  }

  function AppliedAs(p: Parser, f: Field, kind: Kind): Parser {
    Parser(
      p.existingKeys + {f.key},
      if kind.Mode? then f.val else p.mode,
      if InReport(f, kind) then p.report + ReportField(f) else p.report,
      if kind.Mx? then p.mxHosts + " mx_host_pattern=" + Lower(f.val) else p.mxHosts,
      if kind.Mx? then p.mxServers + [MatchPattern(f.val)] else p.mxServers,
      if kind.MaxAge? then CappedAge(f.val) else p.maxAge,
      kind.MaxAge? || p.hasMaxAge,
      kind.Mode? || p.hasMode,
      kind.Version? || p.hasVersion)
  }

  /** The state after one line, or none if the line makes the policy invalid. */
  function ParseLine(p: Parser, line: string, isIp: string -> bool): Option<Parser> {
    match FieldOf(line)
    case None => None
    case Some(f) =>
      if KindOf(f.key).Extension? && !ExtensionName(f.key) then None
      else if Repeated(f, p.existingKeys) then Some(p)
      else if !FieldOk(f, isIp) then None
      else Some(Applied(p, f))
  }

  function ParseLines(p: Parser, lines: seq<string>, isIp: string -> bool): Option<Parser>
    decreases |lines|
  {
    if lines == [] then Some(p)
    else
      match ParseLine(p, lines[0], isIp)
      case None => None
      case Some(q) => ParseLines(q, lines[1..], isIp)
  }

  datatype Policy = Policy(policy: string, report: string, maxAge: nat)

  const NO_POLICY := Policy("", "", 0)

  const SECURE := "secure match="
  const SERVERNAME := "servername=hostname"

  const REPORT_HEAD := "policy_type=sts policy_domain="

  function ReportFor(p: Parser, domain: string): string {
    REPORT_HEAD + domain + p.mxHosts + p.report
  }

  function Printed(p: Parser, domain: string): Policy {
    if !p.hasVersion || !p.hasMode || !p.hasMaxAge || (p.mode != "none" && p.mxServers == []) then NO_POLICY
    else if p.mode == "enforce" && p.mxServers != [] then
      Policy(SECURE + Join(p.mxServers, ":") + " " + SERVERNAME, ReportFor(p, domain), p.maxAge)
    else Policy("", "", p.maxAge)
  }

  function ParseDocument(domain: string, lines: seq<string>, isIp: string -> bool): Policy {
    match ParseLines(NEW_PARSER, lines, isIp)
    case None => NO_POLICY
    case Some(p) => Printed(p, domain)
  }

  // ---------- what the parser state stands for ----------

  function Reported(fs: seq<Field>): seq<Field> {
    if fs == [] then []
    else
      var last, rest := fs[|fs| - 1], Reported(fs[..|fs| - 1]);
      if Reportable(last) then rest + [last] else rest
  }

  function ReportText(fs: seq<Field>): string {
    if fs == [] then "" else ReportText(fs[..|fs| - 1]) + ReportField(fs[|fs| - 1])
  }

  /** The values of the mx fields, in order. */
  function MxValues(fs: seq<Field>): seq<string> {
    if fs == [] then []
    else
      var last, rest := fs[|fs| - 1], MxValues(fs[..|fs| - 1]);
      if KindOf(last.key).Mx? then rest + [last.val] else rest
  }

  function Patterns(vals: seq<string>): (r: seq<string>)
    ensures |r| == |vals| && forall i :: 0 <= i < |vals| ==> r[i] == MatchPattern(vals[i])
  {
    seq(|vals|, i requires 0 <= i < |vals| => MatchPattern(vals[i]))
  }

  function HostPatterns(vals: seq<string>): string {
    if vals == [] then "" else HostPatterns(vals[..|vals| - 1]) + " mx_host_pattern=" + Lower(vals[|vals| - 1])
  }

  function Keys(fs: seq<Field>): set<string> {
    if fs == [] then {} else Keys(fs[..|fs| - 1]) + {fs[|fs| - 1].key}
  }

  /** The value of the known key that occurs at most once. */
  function ValueOf(fs: seq<Field>, kind: Kind): Option<string> {
    if fs == [] then None
    else if KindOf(fs[|fs| - 1].key) == kind then Some(fs[|fs| - 1].val)
    else ValueOf(fs[..|fs| - 1], kind)
  }

  /** The parser state that a list of accepted fields amounts to. */
  function Summary(fs: seq<Field>): Parser {
    var mode, age := ValueOf(fs, Mode), ValueOf(fs, MaxAge);
    Parser(
      Keys(fs),
      if mode.Some? then mode.value else "",
      ReportText(Reported(fs)),
      HostPatterns(MxValues(fs)),
      Patterns(MxValues(fs)),
      if age.Some? then CappedAge(age.value) else 0,
      age.Some?,
      mode.Some?,
      ValueOf(fs, Version).Some?)
  }

  /** The fields that count: all mx fields, and of every other key the first occurrence.
      None if a line is malformed or a field that counts is not acceptable. */
  function Accepted(lines: seq<string>, seen: set<string>, isIp: string -> bool): Option<seq<Field>> {
    if lines == [] then Some([])
    else
      match FieldOf(lines[0])
      case None => None
      case Some(f) =>
        if Repeated(f, seen) then Accepted(lines[1..], seen, isIp)
        else if !FieldOk(f, isIp) then None
        else
          match Accepted(lines[1..], seen + {f.key}, isIp)
          case None => None
          case Some(rest) => Some([f] + rest)
  }

  /** The fields that count in a document, none if it is invalid. */
  function CountedFields(lines: seq<string>, isIp: string -> bool): seq<Field> {
    match Accepted(lines, {}, isIp) case None => [] case Some(fs) => fs
  }

  predicate NamesOk(keys: set<string>) {
    forall k :: k in keys && KindOf(k).Extension? ==> ExtensionName(k)
  }

  /** Applying one more field is summing up one field more. */
  lemma SummaryOfOneMore(done: seq<Field>, f: Field)
    ensures Summary(done + [f]) == Applied(Summary(done), f)
    ensures Keys(done + [f]) == Keys(done) + {f.key}
  {
    KeysAndValuesOfOneMore(done, f);
    ReportOfOneMore(done, f);
    PatternsOfOneMore(done, f);
  }

  lemma KeysAndValuesOfOneMore(done: seq<Field>, f: Field)
    ensures Keys(done + [f]) == Keys(done) + {f.key}
    ensures forall kind :: ValueOf(done + [f], kind) == if KindOf(f.key) == kind then Some(f.val) else ValueOf(done, kind)
  {
  }

  lemma ReportOfOneMore(done: seq<Field>, f: Field)
    ensures ReportText(Reported(done + [f])) ==
            if Reportable(f) then ReportText(Reported(done)) + ReportField(f) else ReportText(Reported(done))
  {
  }

  lemma PatternsOfOneMore(done: seq<Field>, f: Field)
    ensures KindOf(f.key).Mx? ==>
              && Patterns(MxValues(done + [f])) == Patterns(MxValues(done)) + [MatchPattern(f.val)]
              && HostPatterns(MxValues(done + [f])) == HostPatterns(MxValues(done)) + " mx_host_pattern=" + Lower(f.val)
    ensures !KindOf(f.key).Mx? ==> MxValues(done + [f]) == MxValues(done)
  {
  }

  ghost function Summed(done: seq<Field>, fs: Option<seq<Field>>): Option<Parser> {
    match fs case None => None case Some(more) => Some(Summary(done + more))
  }

  /** Parsing is exactly accepting the fields that count and summing them up. */
  lemma {:induction false} ParseMeansAccept(done: seq<Field>, lines: seq<string>, isIp: string -> bool)
    requires NamesOk(Keys(done))
    ensures ParseLines(Summary(done), lines, isIp) == Summed(done, Accepted(lines, Keys(done), isIp))
    decreases |lines|
  {
    if lines == [] {
      assert done + [] == done;
    } else if FieldOf(lines[0]).Some? {
      var f := FieldOf(lines[0]).value;
      if Repeated(f, Keys(done)) {
        ParseMeansAccept(done, lines[1..], isIp);
      } else if FieldOk(f, isIp) {
        SummaryOfOneMore(done, f);
        ParseMeansAccept(done + [f], lines[1..], isIp);
        AcceptedOneMore(done, lines, f, isIp);
      }
    }
  }

  lemma AcceptedOneMore(done: seq<Field>, lines: seq<string>, f: Field, isIp: string -> bool)
    requires lines != [] && FieldOf(lines[0]) == Some(f) && !Repeated(f, Keys(done)) && FieldOk(f, isIp)
    ensures Summed(done, Accepted(lines, Keys(done), isIp)) == Summed(done + [f], Accepted(lines[1..], Keys(done) + {f.key}, isIp))
  {
    SummedOneMore(done, f, Accepted(lines[1..], Keys(done) + {f.key}, isIp));
  }

  lemma SummedOneMore(done: seq<Field>, f: Field, rest: Option<seq<Field>>)
    ensures Summed(done + [f], rest) == Summed(done, match rest case None => None case Some(more) => Some([f] + more))
  {
    if rest.Some? {
      assert (done + [f]) + rest.value == done + ([f] + rest.value);
    }
  }

  /** The whole document. */
  lemma DocumentMeans(domain: string, lines: seq<string>, isIp: string -> bool)
    ensures ParseDocument(domain, lines, isIp) ==
            match Accepted(lines, {}, isIp) case None => NO_POLICY case Some(fs) => Printed(Summary(fs), domain)
  {
    assert Summary([]) == NEW_PARSER;
    ParseMeansAccept([], lines, isIp);
    var fs := Accepted(lines, {}, isIp);
    if fs.Some? {
      assert [] + fs.value == fs.value;
    }
  }

  // ---------- the first value wins ----------

  /** The document without every later repetition of a key other than mx. */
  function WithoutRepeats(lines: seq<string>, seen: set<string>): seq<string> {
    if lines == [] then []
    else
      match FieldOf(lines[0])
      case None => [lines[0]] + WithoutRepeats(lines[1..], seen)
      case Some(f) =>
        if Repeated(f, seen) then WithoutRepeats(lines[1..], seen)
        else [lines[0]] + WithoutRepeats(lines[1..], seen + {f.key})
  }

  lemma {:induction false} AcceptIgnoresRepeats(lines: seq<string>, seen: set<string>, isIp: string -> bool)
    ensures Accepted(WithoutRepeats(lines, seen), seen, isIp) == Accepted(lines, seen, isIp)
    decreases |lines|
  {
    if lines != [] && FieldOf(lines[0]).Some? {
      var f := FieldOf(lines[0]).value;
      var kept := WithoutRepeats(lines, seen);
      if Repeated(f, seen) {
        AcceptIgnoresRepeats(lines[1..], seen, isIp);
      } else {
        AcceptIgnoresRepeats(lines[1..], seen + {f.key}, isIp);
        assert kept[0] == lines[0] && kept[1..] == WithoutRepeats(lines[1..], seen + {f.key});
      }
    }
  }

  /** Section 3.2 of RFC 8461: deleting every later repetition of a non-mx key changes
      neither the policy nor the report nor max_age, whatever the repeated values were. */
  lemma FirstValueWins(domain: string, lines: seq<string>, isIp: string -> bool)
    ensures ParseDocument(domain, WithoutRepeats(lines, {}), isIp) == ParseDocument(domain, lines, isIp)
  {
    AcceptIgnoresRepeats(lines, {}, isIp);
    DocumentMeans(domain, lines, isIp);
    DocumentMeans(domain, WithoutRepeats(lines, {}), isIp);
  }
}
