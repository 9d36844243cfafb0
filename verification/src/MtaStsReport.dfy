/**
 What can be read back from a printed MTA-STS policy and report (internal/mta-sts.go:238-354).
 */
module MtaStsReport {
  import opened Options
  import opened Text
  import opened DnsName
  import opened MtaSts

  // ---------- accepted fields ----------

  lemma KeyHasNoColon(line: string)
    requires FieldOf(line).Some?
    ensures ':' !in FieldOf(line).value.key
  {
  }

  ghost predicate Sound(f: Field, isIp: string -> bool) {
    FieldOk(f, isIp) && ':' !in f.key
  }

  lemma {:induction false} AcceptedAreSound(lines: seq<string>, seen: set<string>, isIp: string -> bool)
    requires Accepted(lines, seen, isIp).Some?
    ensures forall k :: 0 <= k < |Accepted(lines, seen, isIp).value| ==> Sound(Accepted(lines, seen, isIp).value[k], isIp)
    decreases |lines|
  {
    if lines != [] {
      var f := FieldOf(lines[0]).value;
      KeyHasNoColon(lines[0]);
      AcceptedAreSound(lines[1..], if Repeated(f, seen) then seen else seen + {f.key}, isIp);
    }
  }

  /** The values of all mx lines of the document, in order. */
  function MxLines(lines: seq<string>): seq<string> {
    if lines == [] then []
    else
      match FieldOf(lines[0])
      case None => MxLines(lines[1..])
      case Some(f) => if KindOf(f.key).Mx? then [f.val] + MxLines(lines[1..]) else MxLines(lines[1..])
  }

  lemma {:induction false} MxValuesOfCons(f: Field, fs: seq<Field>)
    ensures MxValues([f] + fs) == (if KindOf(f.key).Mx? then [f.val] else []) + MxValues(fs)
  {
    var all := [f] + fs;
    if fs == [] {
      assert all[..0] == [];
    } else {
      var rest := fs[..|fs| - 1];
      assert all[..|all| - 1] == [f] + rest;
      MxValuesOfCons(f, rest);
    }
  }

  /** No mx line is ever skipped. */
  lemma {:induction false} EveryMxCounts(lines: seq<string>, seen: set<string>, isIp: string -> bool)
    requires Accepted(lines, seen, isIp).Some?
    ensures MxValues(Accepted(lines, seen, isIp).value) == MxLines(lines)
    decreases |lines|
  {
    if lines != [] {
      var f := FieldOf(lines[0]).value;
      if Repeated(f, seen) {
        EveryMxCounts(lines[1..], seen, isIp);
      } else {
        EveryMxCounts(lines[1..], seen + {f.key}, isIp);
        MxValuesOfCons(f, Accepted(lines[1..], seen + {f.key}, isIp).value);
      }
    }
  }

  // ---------- the match list ----------

  /** Reads the patterns back from `secure match=a:b:c servername=hostname`. */
  function ReadMatchList(policy: string): Option<seq<string>> {
    if !HasPrefix(policy, SECURE) then None
    else
      var rest := policy[|SECURE|..];
      Some(Split(rest[..IndexOf(rest, ' ')], ':'))
  }

  lemma LowerOfNameChar(c: char)
    requires IsNameChar(c)
    ensures IsNameChar(LowerChar(c))
  {
  }

  ghost predicate NameBytes(s: string) {
    forall i :: 0 <= i < |s| ==> IsNameChar(s[i])
  }

  /** A printed pattern holds only letters, digits, hyphens and dots. */
  lemma PatternBytes(val: string, isIp: string -> bool)
    requires MxPattern(val, isIp)
    ensures NameBytes(MatchPattern(val))
  {
    if HasPrefix(val, "*.") {
      BytesOfName(val[2..], isIp);
      var p := MatchPattern(val);
      assert Lower(val)[0] == '*' && Lower(val)[1] == '.';
      forall i | 0 <= i < |p| ensures IsNameChar(p[i]) {
        assert p[i] == LowerChar(val[i + 1]);
        if i > 0 {
          assert val[2..][i - 1] == val[i + 1];
          LowerOfNameChar(val[i + 1]);
        }
      }
    } else {
      BytesOfName(val, isIp);
      assert IsNameChar(val[0]);
      forall i | 0 <= i < |val| ensures IsNameChar(Lower(val)[i]) {
        LowerOfNameChar(val[i]);
      }
    }
  }

  lemma {:induction false} JoinHasNoSpace(parts: seq<string>)
    requires forall k :: 0 <= k < |parts| ==> ' ' !in parts[k]
    ensures ' ' !in Join(parts, ":")
  {
    if |parts| > 1 {
      JoinHasNoSpace(parts[1..]);
    }
  }

  /** The text between a known head and the first `c` after it. */
  lemma Between(head: string, body: string, c: char, tail: string)
    requires c !in body
    ensures var s := head + body + [c] + tail;
            && head <= s
            && s[|head|..][..IndexOf(s[|head|..], c)] == body
  {
    var s := head + body + [c] + tail;
    var rest := s[|head|..];
    assert rest == body + [c] + tail;
    IndexOfAppended(body, c, tail);
    assert rest[..|body|] == body;
  }

  ghost predicate Separate(parts: seq<string>) {
    forall k :: 0 <= k < |parts| ==> ' ' !in parts[k] && ':' !in parts[k]
  }

  lemma NamesAreSeparate(parts: seq<string>)
    requires forall k :: 0 <= k < |parts| ==> NameBytes(parts[k])
    ensures Separate(parts)
  {
  }

  lemma ReadBack(parts: seq<string>)
    requires parts != [] && Separate(parts)
    ensures ReadMatchList(SECURE + Join(parts, ":") + " " + SERVERNAME) == Some(parts)
  {
    JoinHasNoSpace(parts);
    SplitJoin(parts, ':');
    ReadListBack(Join(parts, ":"));
  }

  lemma ReadListBack(list: string)
    requires ' ' !in list
    ensures ReadMatchList(SECURE + list + " " + SERVERNAME) == Some(Split(list, ':'))
  {
    Between(SECURE, list, ' ', SERVERNAME);
  }

  lemma {:induction false} MxValuesAreSound(fs: seq<Field>, isIp: string -> bool)
    requires forall k :: 0 <= k < |fs| ==> Sound(fs[k], isIp)
    ensures forall k :: 0 <= k < |MxValues(fs)| ==> MxPattern(MxValues(fs)[k], isIp)
  {
    if fs != [] {
      MxValuesAreSound(fs[..|fs| - 1], isIp);
    }
  }

  /** Splitting the printed match list at `:` returns exactly the mx patterns of the document,
      all of them, in order, lower-cased and without the star of a wildcard. */
  lemma MatchListReadsBack(domain: string, lines: seq<string>, isIp: string -> bool)
    ensures ParseDocument(domain, lines, isIp).policy != "" ==>
              && ReadMatchList(ParseDocument(domain, lines, isIp).policy) == Some(Patterns(MxLines(lines)))
              && MxLines(lines) != []
  {
    if ParseDocument(domain, lines, isIp).policy != "" {
      AcceptedListReadsBack(domain, lines, isIp);
    }
  }

  lemma AcceptedListReadsBack(domain: string, lines: seq<string>, isIp: string -> bool)
    requires ParseDocument(domain, lines, isIp).policy != ""
    ensures ReadMatchList(ParseDocument(domain, lines, isIp).policy) == Some(Patterns(MxLines(lines)))
    ensures MxLines(lines) != []
  {
    DocumentMeans(domain, lines, isIp);
    var fs := Accepted(lines, {}, isIp).value;
    EveryMxCounts(lines, {}, isIp);
    AcceptedAreSound(lines, {}, isIp);
    MxValuesAreSound(fs, isIp);
    var parts := Patterns(MxValues(fs));
    forall k | 0 <= k < |parts| ensures NameBytes(parts[k]) {
      PatternBytes(MxValues(fs)[k], isIp);
    }
    NamesAreSeparate(parts);
    ReadBack(parts);
  }

  // ---------- the report ----------

  /** What stands between each opening brace and the next closing one. */
  function Braced(s: string): seq<string>
    decreases |s|
  {
    var open := IndexOf(s, '{');
    if open == |s| then []
    else
      var rest := s[open + 1..];
      var close := IndexOf(rest, '}');
      if close == |rest| then [] else [rest[..close]] + Braced(rest[close + 1..])
  }

  const LABEL := " policy_string = "

  /** Reads `key: value` out of one braced part. */
  function ReadField(part: string): Option<Field> {
    if !HasPrefix(part, LABEL) || |part| < |LABEL| + 1 then None
    else
      var body := part[|LABEL|..|part| - 1];
      var colon := IndexOf(body, ':');
      if |body| < colon + 2 then None else Some(Field(body[..colon], body[colon + 2..]))
  }

  function ReadFields(parts: seq<string>): seq<Option<Field>> {
    if parts == [] then [] else [ReadField(parts[0])] + ReadFields(parts[1..])
  }

  function Known(fs: seq<Field>): seq<Option<Field>> {
    if fs == [] then [] else [Some(fs[0])] + Known(fs[1..])
  }

  function Part(f: Field): string { LABEL + f.key + ": " + f.val + " " }

  lemma ReadPart(f: Field)
    requires ':' !in f.key
    ensures ReadField(Part(f)) == Some(f)
  {
    PartBody(f);
    IndexOfAppended(f.key, ':', " " + f.val);
    var body := f.key + [':'] + (" " + f.val);
    assert body[..|f.key|] == f.key;
    assert body[|f.key| + 2..] == f.val;
  }

  lemma PartBody(f: Field)
    ensures var part := Part(f);
            && HasPrefix(part, LABEL) && |part| >= |LABEL| + 1
            && part[|LABEL|..|part| - 1] == f.key + [':'] + (" " + f.val)
  {
  }

  lemma BracedOne(before: string, part: string, after: string)
    requires '{' !in before && '}' !in part
    ensures Braced(before + "{" + part + "}" + after) == [part] + Braced(after)
  {
    var s := before + "{" + part + "}" + after;
    assert s == before + ['{'] + (part + "}" + after);
    IndexOfAppended(before, '{', part + "}" + after);
    var rest := s[|before| + 1..];
    assert rest == part + ['}'] + after;
    IndexOfAppended(part, '}', after);
    assert rest[..|part|] == part;
    assert rest[|part| + 1..] == after;
  }

  lemma {:induction false} ReportOfCons(f: Field, fs: seq<Field>)
    ensures ReportText([f] + fs) == ReportField(f) + ReportText(fs)
  {
    var all := [f] + fs;
    if fs == [] {
      assert all[..0] == [];
      assert ReportText(all) == "" + ReportField(f);
    } else {
      var rest, last := fs[..|fs| - 1], fs[|fs| - 1];
      assert all[..|all| - 1] == [f] + rest;
      ReportOfCons(f, rest);
      assert ReportField(f) + (ReportText(rest) + ReportField(last)) == (ReportField(f) + ReportText(rest)) + ReportField(last);
    }
  }

  ghost predicate Plain(f: Field) {
    '{' !in f.key && '}' !in f.key && '{' !in f.val && '}' !in f.val && ':' !in f.key
  }

  lemma PartHasNoClose(f: Field)
    requires Plain(f)
    ensures '}' !in Part(f)
  {
  }

  lemma FieldInBraces(f: Field)
    ensures ReportField(f) == " {" + Part(f) + "}"
  {
  }

  lemma Regroup(before: string, piece: string, part: string, after: string)
    requires piece == " {" + part + "}"
    ensures before + (piece + after) == (before + " ") + "{" + part + "}" + after
  {
  }

  /** One field at the front of a report. */
  lemma BracedStep(before: string, f: Field, after: string)
    requires '{' !in before && Plain(f)
    ensures Braced(before + (ReportField(f) + after)) == [Part(f)] + Braced(after)
  {
    FieldInBraces(f);
    PartHasNoClose(f);
    Regroup(before, ReportField(f), Part(f), after);
    BracedOne(before + " ", Part(f), after);
  }

  lemma ReadStep(f: Field, parts: seq<string>, fs: seq<Field>)
    requires fs != [] && fs[0] == f
    requires ':' !in f.key && ReadFields(parts) == Known(fs[1..])
    ensures ReadFields([Part(f)] + parts) == Known(fs)
  {
    ReadPart(f);
    assert ([Part(f)] + parts)[1..] == parts;
  }

  lemma ReportOfFirst(fs: seq<Field>)
    requires fs != []
    ensures ReportText(fs) == ReportField(fs[0]) + ReportText(fs[1..])
  {
    assert fs == [fs[0]] + fs[1..];
    ReportOfCons(fs[0], fs[1..]);
  }

  lemma BracedReportStep(before: string, fs: seq<Field>)
    requires '{' !in before && fs != [] && Plain(fs[0])
    requires ReadFields(Braced("" + ReportText(fs[1..]))) == Known(fs[1..])
    ensures ReadFields(Braced(before + ReportText(fs))) == Known(fs)
  {
    var text := ReportText(fs[1..]);
    assert "" + text == text;
    ReportOfFirst(fs);
    BracedStep(before, fs[0], text);
    ReadStep(fs[0], Braced(text), fs);
  }

  lemma NoBraces(before: string)
    requires '{' !in before
    ensures ReadFields(Braced(before + "")) == Known([])
  {
  }

  lemma {:induction false} BracedReport(before: string, fs: seq<Field>)
    requires '{' !in before && forall k :: 0 <= k < |fs| ==> Plain(fs[k])
    ensures ReadFields(Braced(before + ReportText(fs))) == Known(fs)
    decreases |fs|
  {
    if fs == [] {
      NoBraces(before);
    } else {
      BracedReport("", fs[1..]);
      BracedReportStep(before, fs);
    }
  }

  // ---------- braces occur nowhere else ----------

  lemma NamesHaveNoBraces(key: string)
    requires ExtensionName(key)
    ensures '{' !in key && '}' !in key
  {
  }

  lemma MxValueHasNoBraces(val: string, isIp: string -> bool)
    requires MxPattern(val, isIp)
    ensures '{' !in val && '}' !in val && '{' !in Lower(val)
  {
    if HasPrefix(val, "*.") {
      BytesOfName(val[2..], isIp);
      forall i | 0 <= i < |val| ensures val[i] != '{' && val[i] != '}' && Lower(val)[i] != '{' {
        if i >= 2 {
          assert val[2..][i - 2] == val[i];
          LowerOfNameChar(val[i]);
        }
      }
    } else {
      BytesOfName(val, isIp);
      forall i | 0 <= i < |val| ensures val[i] != '{' && val[i] != '}' && Lower(val)[i] != '{' {
        LowerOfNameChar(val[i]);
      }
    }
  }

  lemma ReportedIsPlain(f: Field, isIp: string -> bool)
    requires Sound(f, isIp) && Reportable(f)
    ensures Plain(f)
  {
    var kind := KindOf(f.key);
    if kind.Extension? {
      NamesHaveNoBraces(f.key);
    } else {
      KnownKeyHasNoBraces(f.key);
      KnownValueHasNoBraces(f, kind, isIp);
    }
  }

  lemma KnownKeyHasNoBraces(key: string)
    requires !KindOf(key).Extension?
    ensures '{' !in key && '}' !in key
  {
  }

  lemma KnownValueHasNoBraces(f: Field, kind: Kind, isIp: string -> bool)
    requires !kind.Extension? && ValueOk(f, kind, isIp)
    ensures '{' !in f.val && '}' !in f.val
  {
    if kind.Mx? {
      MxValueHasNoBraces(f.val, isIp);
    }
  }

  lemma {:induction false} ReportedArePlain(fs: seq<Field>, isIp: string -> bool)
    requires forall k :: 0 <= k < |fs| ==> Sound(fs[k], isIp)
    ensures forall k :: 0 <= k < |Reported(fs)| ==> Plain(Reported(fs)[k])
  {
    if fs != [] {
      ReportedArePlain(fs[..|fs| - 1], isIp);
      if Reportable(fs[|fs| - 1]) {
        ReportedIsPlain(fs[|fs| - 1], isIp);
      }
    }
  }

  lemma NotInThree(a: string, b: string, c: string)
    requires '{' !in a && '{' !in b && '{' !in c
    ensures '{' !in a + b + c
  {
  }

  lemma {:induction false} HostPatternsHaveNoBraces(vals: seq<string>, isIp: string -> bool)
    requires forall k :: 0 <= k < |vals| ==> MxPattern(vals[k], isIp)
    ensures '{' !in HostPatterns(vals)
  {
    if vals != [] {
      HostPatternsHaveNoBraces(vals[..|vals| - 1], isIp);
      MxValueHasNoBraces(vals[|vals| - 1], isIp);
      NotInThree(HostPatterns(vals[..|vals| - 1]), " mx_host_pattern=", Lower(vals[|vals| - 1]));
    }
  }

  lemma HeadHasNoBrace()
    ensures '{' !in REPORT_HEAD
  {
  }

  /** Splitting the printed report at its braces returns exactly the reported fields, key and
      value, in order; the domain of a query never contains a brace. */
  lemma ReportReadsBack(domain: string, lines: seq<string>, isIp: string -> bool)
    requires '{' !in domain
    ensures ParseDocument(domain, lines, isIp).policy != "" ==>
              ReadFields(Braced(ParseDocument(domain, lines, isIp).report)) == Known(Reported(CountedFields(lines, isIp)))
  {
    if ParseDocument(domain, lines, isIp).policy != "" {
      DocumentMeans(domain, lines, isIp);
      var fs := CountedFields(lines, isIp);
      AcceptedAreSound(lines, {}, isIp);
      ReportOfFieldsReadsBack(domain, fs, isIp);
    }
  }

  lemma ReportOfFieldsReadsBack(domain: string, fs: seq<Field>, isIp: string -> bool)
    requires '{' !in domain && forall k :: 0 <= k < |fs| ==> Sound(fs[k], isIp)
    ensures ReadFields(Braced(ReportFor(Summary(fs), domain))) == Known(Reported(fs))
  {
    MxValuesAreSound(fs, isIp);
    HostPatternsHaveNoBraces(MxValues(fs), isIp);
    ReportedArePlain(fs, isIp);
    HeadHasNoBrace();
    BracedReport(REPORT_HEAD + domain + HostPatterns(MxValues(fs)), Reported(fs));
  }
}
