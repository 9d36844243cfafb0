/**
 When a policy document is enforced and for how long (internal/mta-sts.go:297-354), and the
 parser object that reads it line by line (internal/mta-sts.go:168-345).
 */
module MtaStsDocument {
  import opened Options
  import opened Text
  import opened DnsName
  import opened MtaSts
  import opened MtaStsReport

  // ---------- exactly which documents are enforced ----------

  /** The value on the first line with a key of this kind. */
  function FirstValue(lines: seq<string>, kind: Kind): Option<string> {
    if lines == [] then None
    else if FieldOf(lines[0]).Some? && KindOf(FieldOf(lines[0]).value.key) == kind then Some(FieldOf(lines[0]).value.val)
    else FirstValue(lines[1..], kind)
  }

  lemma {:induction false} ValueOfCons(f: Field, fs: seq<Field>, kind: Kind)
    ensures ValueOf([f] + fs, kind) ==
            if ValueOf(fs, kind).Some? then ValueOf(fs, kind) else if KindOf(f.key) == kind then Some(f.val) else None
  {
    var all := [f] + fs;
    if fs == [] {
      assert all[..0] == [];
    } else {
      assert all[..|all| - 1] == [f] + fs[..|fs| - 1];
      ValueOfCons(f, fs[..|fs| - 1], kind);
    }
  }

  ghost predicate Seen(kind: Kind, seen: set<string>) {
    exists key :: key in seen && KindOf(key) == kind
  }

  predicate Single(kind: Kind) { kind.Version? || kind.Mode? || kind.MaxAge? }

  lemma KindHasOneKey(a: string, b: string)
    requires KindOf(a) == KindOf(b) && Single(KindOf(a))
    ensures a == b
  {
  }

  /** The value that counts is the first one, and none once the key has been seen. */
  lemma {:induction false} FirstValueCounts(lines: seq<string>, seen: set<string>, kind: Kind, isIp: string -> bool)
    requires Accepted(lines, seen, isIp).Some? && Single(kind)
    ensures ValueOf(Accepted(lines, seen, isIp).value, kind) == if Seen(kind, seen) then None else FirstValue(lines, kind)
    decreases |lines|
  {
    if lines != [] {
      var f := FieldOf(lines[0]).value;
      if Repeated(f, seen) {
        FirstValueCounts(lines[1..], seen, kind, isIp);
        assert KindOf(f.key) == kind ==> Seen(kind, seen);
      } else {
        FirstValueCounts(lines[1..], seen + {f.key}, kind, isIp);
        ValueOfCons(f, Accepted(lines[1..], seen + {f.key}, isIp).value, kind);
        SeenMore(seen, f.key, kind);
        if KindOf(f.key) == kind && Seen(kind, seen) {
          var key :| key in seen && KindOf(key) == kind;
          KindHasOneKey(key, f.key);
        }
      }
    }
  }

  lemma SeenMore(seen: set<string>, key: string, kind: Kind)
    ensures Seen(kind, seen + {key}) <==> Seen(kind, seen) || KindOf(key) == kind
  {
  }

  /** A policy is enforced exactly when the document is valid, its first version is STSv1, its
      first mode is enforce, it has a max_age and at least one mx line. It then lives for the
      first max_age, capped as section 3.2 of RFC 8461 says; no document lives longer. */
  lemma EnforcedExactly(domain: string, lines: seq<string>, isIp: string -> bool)
    ensures ParseDocument(domain, lines, isIp).policy != "" <==>
            && Accepted(lines, {}, isIp).Some?
            && FirstValue(lines, Version).Some?
            && FirstValue(lines, Mode) == Some("enforce")
            && FirstValue(lines, MaxAge).Some?
            && MxLines(lines) != []
    ensures ParseDocument(domain, lines, isIp).policy != "" ==>
            FirstValue(lines, MaxAge).Some? && ParseDocument(domain, lines, isIp).maxAge == CappedAge(FirstValue(lines, MaxAge).value)
    ensures ParseDocument(domain, lines, isIp).maxAge <= MAX_AGE
  {
    DocumentMeans(domain, lines, isIp);
    if Accepted(lines, {}, isIp).Some? {
      FirstValueCounts(lines, {}, Version, isIp);
      FirstValueCounts(lines, {}, Mode, isIp);
      FirstValueCounts(lines, {}, MaxAge, isIp);
      EveryMxCounts(lines, {}, isIp);
      var fs := Accepted(lines, {}, isIp).value;
      assert |Patterns(MxValues(fs))| == |MxLines(lines)|;
      PrintedExactly(Summary(fs), domain);
    }
  }

  lemma PrintedExactly(p: Parser, domain: string)
    ensures Printed(p, domain).policy != "" <==> p.hasVersion && p.hasMode && p.hasMaxAge && p.mode == "enforce" && p.mxServers != []
    ensures Printed(p, domain).policy != "" ==> Printed(p, domain).maxAge == p.maxAge
    ensures Printed(p, domain).maxAge == 0 || Printed(p, domain).maxAge == p.maxAge
  {
  }

  // ---------- reading a body ----------

  function DropCR(line: string): string {
    if line != "" && line[|line| - 1] == '\r' then line[..|line| - 1] else line
  }

  /** Lines as `bufio.ScanLines` yields them: no line for an empty rest, no final CR. */
  function Lines(body: string): seq<string> {
    var parts := Split(body, '\n');
    var kept := if parts[|parts| - 1] == "" then parts[..|parts| - 1] else parts;
    seq(|kept|, i requires 0 <= i < |kept| => DropCR(kept[i]))
  }

  /** internal/mta-sts.go:328-354. The scanner gives up on a line that fills its buffer. */
  function ParseBody(domain: string, body: string, isIp: string -> bool): Policy {
    if |body| > MAX_POLICY_SIZE || IndexOf(body, '\n') >= MAX_POLICY_SIZE then NO_POLICY
    else ParseDocument(domain, Lines(body), isIp)
  }

  class PolicyParser {
    var existingKeys: set<string>
    var mode: string
    var report: string
    var mxHosts: string
    var mxServers: seq<string>
    var maxAge: nat
    var hasMaxAge: bool
    var hasMode: bool
    var hasVersion: bool

    ghost function View(): Parser
      reads this
    {
      Parser(existingKeys, mode, report, mxHosts, mxServers, maxAge, hasMaxAge, hasMode, hasVersion)
    }

    constructor ()
      ensures View() == NEW_PARSER
    {
      existingKeys := {};
      mode := "";
      report := "";
      mxHosts := "";
      mxServers := [];
      maxAge := 0;
      hasMaxAge, hasMode, hasVersion := false, false, false;
    }

    method WriteReportField(key: string, val: string)
      modifies this`report
      ensures report == old(report) + ReportField(Field(key, val))
    {
      report := report + (" { policy_string = " + key + ": " + val + " }");
    }

    /** Reads one line into the state; false means that the policy is invalid. */
    method ParseLine(line: string, isIp: string -> bool) returns (ok: bool)
      modifies this
      ensures ok <==> MtaSts.ParseLine(old(View()), line, isIp).Some?
      ensures ok ==> Some(View()) == MtaSts.ParseLine(old(View()), line, isIp)
    {
      var text := TrimRight(line, IsBlank);
      if |text| == 0 {
        return false;
      }
      var colon := IndexOf(text, ':');
      if colon == |text| {
        return false;
      }
      var key, val := text[..colon], TrimLeft(text[colon + 1..], IsBlank);
      ghost var f := Field(key, val);
      assert FieldOf(line) == Some(f);
      var kind := KindOf(key);
      if kind.Extension? && !ExtensionName(key) {
        return false;
      }
      if !kind.Mx? && key in existingKeys {
        return true;
      }
      ghost var before := View();
      existingKeys := existingKeys + {key};
      assert AppliedAs(View(), f, kind) == AppliedAs(before, f, kind);
      ok := Store(key, val, kind, isIp);
    }

    method StoreMx(key: string, val: string, isIp: string -> bool) returns (ok: bool)
      modifies this`mxHosts, this`mxServers, this`report
      ensures ok <==> MxPattern(val, isIp)
      ensures ok ==> mxHosts == old(mxHosts) + " mx_host_pattern=" + Lower(val)
      ensures ok ==> mxServers == old(mxServers) + [MatchPattern(val)]
      ensures ok ==> report == old(report) + ReportField(Field(key, val))
    {
      if HasPrefix(val, "*.") {
        ok := CheckDnsName(val[2..], isIp);
      } else {
        ok := CheckDnsName(val, isIp);
      }
      if !ok {
        return;
      }
      var lower := Lower(val);
      mxHosts := mxHosts + " mx_host_pattern=" + lower;
      if HasPrefix(lower, "*.") {
        lower := lower[1..];
      }
      mxServers := mxServers + [lower];
      WriteReportField(key, val);
    }

    /** The switch over the keys. */
    method Store(key: string, val: string, kind: Kind, isIp: string -> bool) returns (ok: bool)
      requires key in existingKeys && (kind.Extension? ==> ExtensionName(key))
      modifies this
      ensures ok <==> ValueOk(Field(key, val), kind, isIp)
      ensures ok ==> View() == AppliedAs(old(View()), Field(key, val), kind)
    {
      assert existingKeys + {key} == existingKeys;
      match kind {
        case Version =>
          if val != "STSv1" {
            return false;
          }
          hasVersion := true;
          WriteReportField(key, val);
        case Mx =>
          ok := StoreMx(key, val, isIp);
          return;
        case Mode =>
          if val != "enforce" && val != "testing" && val != "none" {
            return false;
          }
          mode := val;
          hasMode := true;
          WriteReportField(key, val);
        case MaxAge =>
          if !MaxAgeDigits(val) {
            return false;
          }
          var age := Decimal(val);
          maxAge := if age > MAX_AGE then MAX_AGE else age;
          hasMaxAge := true;
          WriteReportField(key, val);
        case Extension =>
          if !ExtensionValue(val) {
            return false;
          }
          if '{' in val || '}' in val {
            return true;
          }
          WriteReportField(key, val);
      }
      return true;
    }
  }

  /** Reads a whole body through a parser object. */
  method ParsePolicy(domain: string, body: string, isIp: string -> bool) returns (r: Policy)
    ensures r == ParseBody(domain, body, isIp)
  {
    if |body| > MAX_POLICY_SIZE || IndexOf(body, '\n') >= MAX_POLICY_SIZE {
      return NO_POLICY;
    }
    var lines := Lines(body);
    var parser := new PolicyParser();
    for i := 0 to |lines|
      invariant ParseLines(NEW_PARSER, lines, isIp) == ParseLines(parser.View(), lines[i..], isIp)
    {
      assert lines[i..][1..] == lines[i + 1..];
      var ok := parser.ParseLine(lines[i], isIp);
      if !ok {
        return NO_POLICY;
      }
    }
    if !parser.hasVersion || !parser.hasMode || !parser.hasMaxAge || (parser.mode != "none" && |parser.mxServers| == 0) {
      return NO_POLICY;
    }
    if parser.mode == "enforce" && |parser.mxServers| != 0 {
      var report := REPORT_HEAD + domain + parser.mxHosts + parser.report;
      return Policy(SECURE + Join(parser.mxServers, ":") + " " + SERVERNAME, report, parser.maxAge);
    }
    return Policy("", "", parser.maxAge);
  }
}
