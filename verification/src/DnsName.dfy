/**
 DNS name validation (internal/utils/valid/valid.go:40-76): the one-pass scanner accepts
 exactly the names all of whose labels are well formed. Whether a string parses as an IP
 address is an arbitrary predicate, which only rejects more names.
 */
module DnsName {
  import opened Text

  predicate IsAlphanum(c: char) {
    'a' <= c <= 'z' || 'A' <= c <= 'Z' || '0' <= c <= '9'
  }

  predicate IsLabelChar(c: char) { IsAlphanum(c) || c == '-' }

  predicate ValidLabel(lab: string) {
    && 1 <= |lab| <= 63
    && (forall i :: 0 <= i < |lab| ==> IsLabelChar(lab[i]))
    && lab[0] != '-' && lab[|lab| - 1] != '-'
  }

  predicate AllValid(labels: seq<string>) {
    forall k :: 0 <= k < |labels| ==> ValidLabel(labels[k])
  }

  /** Up to 253 bytes of well-formed labels between dots, with at most one final dot. */
  predicate IsDnsName(s: string, isIp: string -> bool) {
    var name := TrimDot(s);
    name != "" && |name| <= 253 && !isIp(name) && AllValid(Split(name, '.'))
  }

  /** The same condition, label by label from the left. */
  predicate LabelsOk(s: string)
    decreases |s|
  {
    var i := IndexOf(s, '.');
    if i == |s| then ValidLabel(s) else ValidLabel(s[..i]) && LabelsOk(s[i + 1..])
  }

  lemma {:induction false} LabelsOkMeansAllValid(s: string)
    ensures LabelsOk(s) <==> AllValid(Split(s, '.'))
    decreases |s|
  {
    var i := IndexOf(s, '.');
    var labels := Split(s, '.');
    if i < |s| {
      var tail := Split(s[i + 1..], '.');
      LabelsOkMeansAllValid(s[i + 1..]);
      assert labels == [s[..i]] + tail;
      assert labels[0] == s[..i];
      assert forall j :: 0 <= j < |tail| ==> tail[j] == labels[j + 1];
      assert forall j :: 1 <= j < |labels| ==> labels[j] == tail[j - 1];
    } else {
      assert labels[0] == s;
    }
  }

  lemma DropLabel(s: string, k: nat)
    requires k < |s| && s[k] == '.' && '.' !in s[..k]
    ensures LabelsOk(s) <==> ValidLabel(s[..k]) && LabelsOk(s[k + 1..])
  {
    assert s == s[..k] + ['.'] + s[k + 1..];
    IndexOfAppended(s[..k], '.', s[k + 1..]);
  }

  /** A label with a bad byte, or one that starts with a hyphen, spoils the name. */
  lemma BadByte(s: string, k: nat)
    requires k < |s| && '.' !in s[..k] && s[k] != '.'
    requires !IsLabelChar(s[k]) || (k == 0 && s[k] == '-')
    ensures !LabelsOk(s)
  {
    var i := IndexOf(s, '.');
    assert forall j :: 0 <= j < k ==> s[..k][j] == s[j];
    assert k < i;
    assert s[..i][k] == s[k];
    assert !ValidLabel(s[..i]);
    assert i == |s| ==> s[..i] == s;
  }

  /** The scanner stands at byte `i` of `t`, `n` bytes into a label that is good so far, and
      everything before that label was good. */
  ghost predicate Scanning(t: string, i: nat, n: nat) {
    && n <= i <= |t|
    && '.' !in t[i - n..i]
    && (forall k :: i - n <= k < i ==> IsLabelChar(t[k]))
    && (n > 0 ==> t[i - n] != '-')
    && LabelsOk(t) == LabelsOk(t[i - n..])
  }

  lemma ScanDot(t: string, i: nat, n: nat)
    requires Scanning(t, i, n) && i < |t| && t[i] == '.'
    ensures n == 0 || n > 63 || t[i - 1] == '-' ==> !LabelsOk(t)
    ensures !(n == 0 || n > 63 || t[i - 1] == '-') ==> Scanning(t, i + 1, 0)
  {
    var rest := t[i - n..];
    assert rest[n] == '.' && rest[..n] == t[i - n..i];
    DropLabel(rest, n);
    assert rest[n + 1..] == t[i + 1..];
    assert n > 0 ==> rest[..n][n - 1] == t[i - 1] && rest[..n][0] == t[i - n];
  }

  lemma ScanBadByte(t: string, i: nat, n: nat)
    requires Scanning(t, i, n) && i < |t| && t[i] != '.'
    requires !IsLabelChar(t[i]) || (n == 0 && t[i] == '-')
    ensures !LabelsOk(t)
  {
    var rest := t[i - n..];
    assert rest[n] == t[i] && rest[..n] == t[i - n..i];
    BadByte(rest, n);
  }

  lemma ScanGoodByte(t: string, i: nat, n: nat)
    requires Scanning(t, i, n) && i < |t| && t[i] != '.'
    requires IsLabelChar(t[i]) && !(n == 0 && t[i] == '-')
    ensures Scanning(t, i + 1, n + 1)
  {
    var start := i - n;
    assert t[start..i + 1] == t[start..i] + [t[i]];
  }

  lemma ScanEnd(t: string, n: nat)
    requires t != "" && Scanning(t, |t|, n)
    ensures LabelsOk(t) <==> !(n == 0 || n > 63 || t[|t| - 1] == '-')
  {
    var rest := t[|t| - n..];
    assert rest == t[|t| - n..|t|];
    assert n > 0 ==> rest[n - 1] == t[|t| - 1] && rest[0] == t[|t| - n];
  }

  method CheckDnsName(s: string, isIp: string -> bool) returns (ok: bool)
    ensures ok <==> IsDnsName(s, isIp)
  {
    if s == "" {
      return false;
    }
    var t := s;
    if t[|t| - 1] == '.' {
      t := t[..|t| - 1];
    }
    if t == "" || |t| > 253 {
      return false;
    }
    if isIp(t) {
      return false;
    }
    LabelsOkMeansAllValid(t);
    ok := ScanLabels(t);
  }

  method ScanLabels(t: string) returns (ok: bool)
    requires t != ""
    ensures ok <==> LabelsOk(t)
  {
    var labelLen: nat := 0;
    var startOfLabel := true;
    for i := 0 to |t|
      invariant startOfLabel == (labelLen == 0)
      invariant Scanning(t, i, labelLen)
    {
      var c := t[i];
      if c == '.' {
        ScanDot(t, i, labelLen);
        if labelLen == 0 || labelLen > 63 || t[i - 1] == '-' {
          return false;
        }
        labelLen := 0;
        startOfLabel := true;
      } else {
        if !IsLabelChar(c) || (startOfLabel && c == '-') {
          ScanBadByte(t, i, labelLen);
          return false;
        }
        ScanGoodByte(t, i, labelLen);
        labelLen := labelLen + 1;
        startOfLabel := false;
      }
    }
    ScanEnd(t, labelLen);
    return !(labelLen == 0 || labelLen > 63 || t[|t| - 1] == '-');
  }

  // ---------- the bytes of a valid name ----------

  predicate IsNameChar(c: char) { IsLabelChar(c) || c == '.' }

  lemma {:induction false} BytesOfLabels(s: string)
    requires LabelsOk(s)
    ensures forall k :: 0 <= k < |s| ==> IsNameChar(s[k])
    decreases |s|
  {
    var i := IndexOf(s, '.');
    if i < |s| {
      BytesOfLabels(s[i + 1..]);
      forall k | 0 <= k < |s| ensures IsNameChar(s[k]) {
        if k < i {
          assert s[..i][k] == s[k];
        } else if k > i {
          assert s[i + 1..][k - i - 1] == s[k];
        }
      }
    }
  }

  /** A valid name consists of letters, digits, hyphens and dots. */
  lemma BytesOfName(s: string, isIp: string -> bool)
    requires IsDnsName(s, isIp)
    ensures s != "" && forall k :: 0 <= k < |s| ==> IsNameChar(s[k])
  {
    var name := TrimDot(s);
    LabelsOkMeansAllValid(name);
    BytesOfLabels(name);
    forall k | 0 <= k < |s| ensures IsNameChar(s[k]) {
      if k < |name| {
        assert name[k] == s[k];
      }
    }
  }

  /** An absolute name is valid exactly when the same name without the final dot is, unless
      that one ends in a dot itself. */
  lemma FinalDotIsOptional(s: string, isIp: string -> bool)
    requires !EndsWithDot(s)
    ensures IsDnsName(s + ".", isIp) <==> IsDnsName(s, isIp)
  {
    assert (s + ".")[..|s|] == s;
  }
}
