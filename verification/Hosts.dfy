// Host validation before a probe (internal/background/scheduler.go,
// isValidHost).  A host is a string of bytes.
module Hosts {
  import opened GoText

  // strings.Split(s, ".")
  function Split(s: string): (labels: seq<string>)
    ensures labels != []
  {
    if s == "" then [""]
    else
      var rest := Split(s[1..]);
      if s[0] == '.' then [""] + rest
      else [[s[0]] + rest[0]] + rest[1..]
  }

  // The labels joined by dots.
  function Join(labels: seq<string>): string
    requires labels != []
  {
    if |labels| == 1 then labels[0] else labels[0] + "." + Join(labels[1..])
  }

  // The labels are the parts between the dots.
  lemma {:induction false} SplitThenJoin(s: string)
    ensures Join(Split(s)) == s
    ensures forall k :: 0 <= k < |Split(s)| ==> '.' !in Split(s)[k]
  {
    if s != "" {
      var rest := Split(s[1..]);
      SplitThenJoin(s[1..]);
      if s[0] == '.' {
        assert Split(s) == [""] + rest && ([""] + rest)[1..] == rest;
        assert s == "." + s[1..];
      } else {
        var first := [s[0]] + rest[0];
        assert Split(s) == [first] + rest[1..] && ([first] + rest[1..])[1..] == rest[1..];
        assert Join(Split(s)) == [s[0]] + Join(rest);
      }
    }
  }

  // What the scanner accepts when the host is not an IP literal.
  ghost predicate IsDottedName(host: string) {
    && 1 <= |host| <= 253
    && |Split(host)| >= 2
    && (forall k :: 0 <= k < |Split(host)| ==> Split(host)[k] != "")
    && (forall c :: c in host && c != '.' && c != '-' ==> 'a' <= c <= 'z' || 'A' <= c <= 'Z' || '0' <= c <= '9')
    && (exists c :: c in host && ('a' <= c <= 'z' || 'A' <= c <= 'Z'))
    && host[0] != '-' && host[|host| - 1] != '-'
  }

  // The scanner's test at one position.
  ghost predicate CharOk(host: string, i: nat)
    requires i < |host|
  {
    || IsLetter(host[i])
    || IsDigit(host[i])
    || (host[i] == '.' && 0 < i < |host| - 1 && host[i - 1] != '.')
    || (host[i] == '-' && 0 < i < |host| - 1)
  }

  ghost predicate Scans(host: string) {
    && 1 <= |host| <= 253
    && (forall i :: 0 <= i < |host| ==> CharOk(host, i))
    && (exists i :: 0 <= i < |host| && IsLetter(host[i]))
    && '.' in host
  }

  // Every dot is followed by something other than a dot.
  ghost predicate DotsFollowed(s: string) {
    forall i :: 0 <= i < |s| && s[i] == '.' ==> i + 1 < |s| && s[i + 1] != '.'
  }

  lemma DotsFollowedStep(s: string)
    requires s != ""
    ensures DotsFollowed(s) <==> DotsFollowed(s[1..]) && (s[0] == '.' ==> 1 < |s| && s[1] != '.')
  {
    var t := s[1..];
    if DotsFollowed(s) {
      forall i | 0 <= i < |t| && t[i] == '.' ensures i + 1 < |t| && t[i + 1] != '.' {
        assert s[i + 1] == '.';
      }
    }
    if DotsFollowed(t) && (s[0] == '.' ==> 1 < |s| && s[1] != '.') {
      forall i | 0 <= i < |s| && s[i] == '.' ensures i + 1 < |s| && s[i + 1] != '.' {
        if i > 0 {
          assert t[i - 1] == '.';
        }
      }
    }
  }

  // No label from position k on is empty.
  ghost predicate NonEmptyFrom(labels: seq<string>, k: nat) {
    forall j :: k <= j < |labels| ==> labels[j] != ""
  }

  lemma {:induction false} SplitHasDot(s: string)
    ensures |Split(s)| >= 2 <==> '.' in s
  {
    if s != "" {
      SplitHasDot(s[1..]);
      assert s == [s[0]] + s[1..];
    }
  }

  // Every label but the first follows a dot.
  lemma {:induction false} SplitLaterLabels(s: string)
    ensures NonEmptyFrom(Split(s), 1) <==> DotsFollowed(s)
  {
    if s != "" {
      var rest := Split(s[1..]);
      SplitLaterLabels(s[1..]);
      DotsFollowedStep(s);
      if s[0] == '.' {
        assert Split(s) == [""] + rest;
        LabelsAfterDot(rest);
      } else {
        assert Split(s) == [[s[0]] + rest[0]] + rest[1..];
        OtherFirstLabel(rest, [s[0]] + rest[0]);
      }
    }
  }

  lemma LabelsAfterDot(rest: seq<string>)
    requires rest != []
    ensures NonEmptyFrom([""] + rest, 1) <==> rest[0] != "" && NonEmptyFrom(rest, 1)
  {
    var all := [""] + rest;
    if NonEmptyFrom(all, 1) {
      forall j | 0 <= j < |rest| ensures rest[j] != "" {
        assert all[j + 1] == rest[j];
      }
    }
  }

  lemma OtherFirstLabel(rest: seq<string>, first: string)
    requires rest != []
    ensures NonEmptyFrom([first] + rest[1..], 1) <==> NonEmptyFrom(rest, 1)
  {
    var all := [first] + rest[1..];
    forall j | 1 <= j < |rest| ensures all[j] == rest[j] {
    }
  }

  lemma ScanIsDottedName(host: string)
    ensures Scans(host) <==> IsDottedName(host)
  {
    SplitHasDot(host);
    SplitLaterLabels(host);
    assert (forall k :: 0 <= k < |Split(host)| ==> Split(host)[k] != "") <==>
           Split(host)[0] != "" && NonEmptyFrom(Split(host), 1);
    if Scans(host) {
      forall i | 0 <= i < |host| && host[i] == '.' ensures i + 1 < |host| && host[i + 1] != '.' {
        assert CharOk(host, i) && CharOk(host, i + 1);
      }
      assert CharOk(host, 0) && CharOk(host, |host| - 1);
      forall c | c in host && c != '.' && c != '-'
        ensures 'a' <= c <= 'z' || 'A' <= c <= 'Z' || '0' <= c <= '9'
      {
        var i :| 0 <= i < |host| && host[i] == c;
        assert CharOk(host, i);
      }
      var i :| 0 <= i < |host| && IsLetter(host[i]);
      assert host[i] in host;
    }
    if IsDottedName(host) {
      assert DotsFollowed(host);
      forall i | 0 <= i < |host| ensures CharOk(host, i) {
        assert host[i] in host;
      }
      var c :| c in host && ('a' <= c <= 'z' || 'A' <= c <= 'Z');
      var i :| 0 <= i < |host| && host[i] == c;
    }
  }

  // isIP stands for net.ParseIP(host) != nil.
  method IsValidHost(host: string, isIP: string -> bool) returns (ok: bool)
    ensures ok <==> isIP(host) || IsDottedName(host)
  {
    if isIP(host) {
      return true;
    }
    ScanIsDottedName(host);
    if |host| == 0 || |host| > 253 {
      return false;
    }
    var hasLetter := false;
    var hasDot := false;
    var prevChar := '\0';
    for i := 0 to |host|
      invariant forall j :: 0 <= j < i ==> CharOk(host, j)
      invariant hasLetter <==> exists j :: 0 <= j < i && IsLetter(host[j])
      invariant hasDot <==> exists j :: 0 <= j < i && host[j] == '.'
      invariant i > 0 ==> prevChar == host[i - 1]
    {
      var r := host[i];
      if IsLetter(r) {
        hasLetter := true;
      } else if r == '.' {
        hasDot := true;
        if i == 0 || i == |host| - 1 || prevChar == '.' {
          assert !CharOk(host, i);
          return false;
        }
      } else if IsDigit(r) {
      } else if r == '-' {
        if i == 0 || i == |host| - 1 {
          assert !CharOk(host, i);
          return false;
        }
      } else {
        assert !CharOk(host, i);
        return false;
      }
      prevChar := r;
    }
    assert '.' in host <==> exists j :: 0 <= j < |host| && host[j] == '.';
    return hasLetter && hasDot;
  }

  // n copies of the letter a
  function LongLabel(n: nat): (s: string)
    ensures |s| == n && forall i :: 0 <= i < n ==> s[i] == 'a'
  {
    if n == 0 then "" else LongLabel(n - 1) + "a"
  }

  // The comment above the scanner limits labels to 63 bytes; the scanner does
  // not.
  lemma LongLabelAccepted(n: nat)
    requires 1 <= n <= 249
    ensures IsDottedName(LongLabel(n) + ".com")
  {
    var host := LongLabel(n) + ".com";
    assert IsLetter(host[0]);
    assert host[n] == '.';
    assert host[n + 1] == 'c' && host[n + 2] == 'o' && host[n + 3] == 'm';
    ScanIsDottedName(host);
  }

  // Hyphens are refused at the ends of the host, not at the ends of a label.
  lemma LabelEdgeHyphenAccepted()
    ensures IsDottedName("a-.b")
  {
    var host := "a-.b";
    assert IsLetter(host[0]) && host[2] == '.';
    ScanIsDottedName(host);
  }
}
