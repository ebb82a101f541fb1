/**
  Hostname matching: both names are lowercased and split at dots, then compared
  label by label, where a pattern label that is exactly `*` matches any label.
 */
module Hostname {

  function Lower(c: char): char {
    if 'A' <= c <= 'Z' then c - 'A' + 'a' else c
  }

  function LowerAll(s: string): (r: string)
    ensures |r| == |s|
  {
    seq(|s|, i requires 0 <= i < |s| => Lower(s[i]))
  }

  /** The labels between the dots: always one more than there are dots. */
  function Labels(s: string): (ls: seq<string>)
    ensures ls != []
  {
    if s == "" then [""]
    else if s[0] == '.' then [""] + Labels(s[1..])
    else var rest := Labels(s[1..]); [[s[0]] + rest[0]] + rest[1..]
  }

  function Rejoin(ls: seq<string>): string
    requires ls != []
  {
    if |ls| == 1 then ls[0] else ls[0] + "." + Rejoin(ls[1..])
  }

  function Dots(s: string): nat {
    if s == "" then 0 else (if s[0] == '.' then 1 else 0) + Dots(s[1..])
  }

  predicate NoDot(l: string) {
    forall i :: 0 <= i < |l| ==> l[i] != '.'
  }

  predicate LabelMatches(pattern: string, name: string) {
    pattern == "*" || pattern == name
  }

  predicate LabelsMatch(es: seq<string>, hs: seq<string>) {
    |es| == |hs| && forall i :: 0 <= i < |es| ==> LabelMatches(es[i], hs[i])
  }

  /** The labels of the lowercased name. */
  function LowerLabels(s: string): (ls: seq<string>)
    ensures ls != []
  {
    Labels(LowerAll(s))
  }

  /** Whether the expression matches the hostname. */
  predicate Matches(hostexpr: string, hostname: string) {
    LabelsMatch(LowerLabels(hostexpr), LowerLabels(hostname))
  }

  // ---------------------------------------------------------------- splitting

  /** The labels after one more character. */
  function Pushed(ls: seq<string>, c: char): seq<string>
    requires ls != []
  {
    if c == '.' then ls + [""] else ls[..|ls| - 1] + [ls[|ls| - 1] + [c]]
  }

  lemma PushedTail(ls: seq<string>, c: char)
    requires ls != []
    ensures Pushed([""] + ls, c) == [""] + Pushed(ls, c)
  {
    assert ([""] + ls)[..|ls|] == [""] + ls[..|ls| - 1];
  }

  lemma PushedHead(d: char, ls: seq<string>, c: char)
    requires ls != []
    ensures Pushed(ls, c) != []
    ensures Pushed([[d] + ls[0]] + ls[1..], c) == [[d] + Pushed(ls, c)[0]] + Pushed(ls, c)[1..]
  {
    var ms := [[d] + ls[0]] + ls[1..];
    if |ls| == 1 {
      assert ls == [ls[0]] && ms == [[d] + ls[0]];
      assert [d] + (ls[0] + [c]) == ([d] + ls[0]) + [c];
    } else {
      assert ms[..|ms| - 1] == [[d] + ls[0]] + ls[1..|ls| - 1];
      assert Pushed(ls, c)[0] == ls[0];
    }
  }

  lemma {:induction false} LabelsPush(s: string, c: char)
    ensures Labels(s + [c]) == Pushed(Labels(s), c)
  {
    if s == "" {
      assert "" + [c] == [c] && [c][1..] == "" && Labels("") == [""];
      assert [""][1..] == [] && [""][..0] == [] && [c] + "" == [c];
    } else {
      assert (s + [c])[1..] == s[1..] + [c];
      LabelsPush(s[1..], c);
      PushedTail(Labels(s[1..]), c);
      PushedHead(s[0], Labels(s[1..]), c);
    }
  }

  /** The split has one label more than there are dots, no label holds a dot, and joining undoes it. */
  lemma {:induction false} LabelsRejoin(s: string)
    ensures |Labels(s)| == Dots(s) + 1
    ensures forall i :: 0 <= i < |Labels(s)| ==> NoDot(Labels(s)[i])
    ensures Rejoin(Labels(s)) == s
  {
    if s != "" {
      LabelsRejoin(s[1..]);
      var rest := Labels(s[1..]);
      if s[0] == '.' {
        assert Labels(s)[1..] == rest;
        assert s == "" + "." + s[1..];
      } else {
        assert Labels(s)[1..] == rest[1..];
        assert s == [s[0]] + s[1..];
      }
    }
  }

  lemma {:induction false} LabelOnly(l: string)
    requires NoDot(l)
    ensures Labels(l) == [l]
  {
    if l != "" {
      assert NoDot(l[1..]) && l[0] != '.';
      LabelOnly(l[1..]);
      assert [l[1..]][1..] == [] && [l[0]] + l[1..] == l;
    }
  }

  lemma {:induction false} LabelThenDot(l: string, s: string)
    requires NoDot(l)
    ensures Labels(l + "." + s) == [l] + Labels(s)
  {
    if l == "" {
      assert "" + "." + s == ['.'] + s;
    } else {
      assert (l + "." + s)[1..] == l[1..] + "." + s;
      assert NoDot(l[1..]) && l[0] != '.';
      LabelThenDot(l[1..], s);
      assert ([l[1..]] + Labels(s))[1..] == Labels(s) && [l[0]] + l[1..] == l;
    }
  }

  /** And splitting undoes joining. */
  lemma {:induction false} RejoinLabels(ls: seq<string>)
    requires ls != [] && forall i :: 0 <= i < |ls| ==> NoDot(ls[i])
    ensures Labels(Rejoin(ls)) == ls
  {
    if |ls| == 1 {
      LabelOnly(ls[0]);
    } else {
      RejoinLabels(ls[1..]);
      LabelThenDot(ls[0], Rejoin(ls[1..]));
    }
  }

  /** t is s with the capital letters of ASCII, codes 65 to 90, moved up by 32. */
  predicate InLowerCase(s: string, t: string) {
    |t| == |s| && forall i :: 0 <= i < |s| ==>
      t[i] as int == if 65 <= s[i] as int <= 90 then s[i] as int + 32 else s[i] as int
  }

  /** LowerCaseHostnameVector: one pass that lowercases and splits at once. */
  method LowerCaseHostnameVector(hostname: string) returns (components: seq<string>)
    ensures components == LowerLabels(hostname)
    ensures |components| == |Labels(hostname)|
    ensures forall i :: 0 <= i < |components| ==> InLowerCase(Labels(hostname)[i], components[i])
  {
    components := [];
    var lower := "";
    for i := 0 to |hostname|
      invariant components + [lower] == LowerLabels(hostname[..i])
    {
      var c := hostname[i];
      LabelsPush(LowerAll(hostname[..i]), Lower(c));
      assert LowerAll(hostname[..i + 1]) == LowerAll(hostname[..i]) + [Lower(c)];
      if c == '.' {
        components := components + [lower];
        lower := "";
      } else if 'A' <= c <= 'Z' {
        lower := lower + [c - 'A' + 'a'];
      } else {
        lower := lower + [c];
      }
    }
    assert hostname[..|hostname|] == hostname;
    components := components + [lower];
    LowerLabelwise(hostname);
  }

  method HostnameExprMatch(hostexpr: string, hostname: string) returns (b: bool)
    ensures b <==> Matches(hostexpr, hostname)
  {
    var vhostexpr := LowerCaseHostnameVector(hostexpr);
    var vhostname := LowerCaseHostnameVector(hostname);
    if |vhostexpr| == 0 || |vhostname| == 0 { return false; }
    if |vhostexpr| != |vhostname| { return false; }
    for i := 0 to |vhostname|
      invariant forall j :: 0 <= j < i ==> LabelMatches(vhostexpr[j], vhostname[j])
    {
      if vhostexpr[i] != "*" && vhostexpr[i] != vhostname[i] { return false; }
    }
    return true;
  }

  /** VerifyHostname: the DNS names decide alone if there are any; otherwise the common name. */
  method VerifyHostname(dnsNames: seq<string>, commonName: string, hostname: string) returns (b: bool)
    ensures b <==> if dnsNames != [] then exists i :: 0 <= i < |dnsNames| && Matches(dnsNames[i], hostname)
                   else Matches(commonName, hostname)
  {
    if |dnsNames| > 0 {
      for i := 0 to |dnsNames|
        invariant forall j :: 0 <= j < i ==> !Matches(dnsNames[j], hostname)
      {
        var ok := HostnameExprMatch(dnsNames[i], hostname);
        if ok { return true; }
      }
    } else {
      var ok := HostnameExprMatch(commonName, hostname);
      if ok { return true; }
    }
    return false;
  }

  // ---------------------------------------------------------------- a scanner that splits nothing

  /** The same character, or the same letter of the ASCII alphabet in upper and lower case. */
  predicate SameChar(a: char, b: char) {
    || a == b
    || (65 <= a as int <= 90 && b as int == a as int + 32)
    || (65 <= b as int <= 90 && a as int == b as int + 32)
  }

  lemma LowerIsSame(a: char, b: char)
    ensures Lower(a) == Lower(b) <==> SameChar(a, b)
  {
  }

  predicate LabelEnds(s: string) { s == "" || s[0] == '.' }

  predicate StarLabel(s: string) { s != "" && s[0] == '*' && LabelEnds(s[1..]) }

  function SkipLabel(s: string): (r: string)
    ensures |r| <= |s| && LabelEnds(r)
  {
    if LabelEnds(s) then s else SkipLabel(s[1..])
  }

  /** Walks both strings at once, character by character, from where the labels begin or from inside them. */
  predicate Scan(e: string, h: string, atStart: bool)
    decreases |e|
  {
    if atStart && StarLabel(e) then
      var h' := SkipLabel(h);
      if |e| == 1 || h' == "" then |e| == 1 && h' == "" else Scan(e[2..], h'[1..], true)
    else if LabelEnds(e) || LabelEnds(h) then
      if e == "" || h == "" then e == "" && h == ""
      else e[0] == '.' && h[0] == '.' && Scan(e[1..], h[1..], true)
    else SameChar(e[0], h[0]) && Scan(e[1..], h[1..], false)
  }

  predicate MatchFrom(es: seq<string>, hs: seq<string>, star: bool)
    requires es != [] && hs != []
  {
    ((star && es[0] == "*") || es[0] == hs[0]) && LabelsMatch(es[1..], hs[1..])
  }

  lemma MatchFromStart(es: seq<string>, hs: seq<string>)
    requires es != [] && hs != []
    ensures LabelsMatch(es, hs) <==> MatchFrom(es, hs, true)
  {
    if MatchFrom(es, hs, true) {
      forall i | 0 <= i < |es| ensures LabelMatches(es[i], hs[i]) {
        if i > 0 { assert es[i] == es[1..][i - 1] && hs[i] == hs[1..][i - 1]; }
      }
    }
    if LabelsMatch(es, hs) {
      assert LabelMatches(es[0], hs[0]);
    }
  }

  lemma LowerLabelsStep(s: string)
    requires s != ""
    ensures s[0] == '.' ==> LowerLabels(s) == [""] + LowerLabels(s[1..])
    ensures s[0] != '.' ==>
              LowerLabels(s) == [[Lower(s[0])] + LowerLabels(s[1..])[0]] + LowerLabels(s[1..])[1..]
  {
    assert LowerAll(s)[1..] == LowerAll(s[1..]);
    assert Lower(s[0]) == '.' <==> s[0] == '.';
  }

  lemma {:induction false} SkipIsFirstLabel(h: string)
    ensures SkipLabel(h) == "" ==> LowerLabels(h)[1..] == []
    ensures SkipLabel(h) != "" ==> LowerLabels(h)[1..] == LowerLabels(SkipLabel(h)[1..])
  {
    if h != "" {
      LowerLabelsStep(h);
      if h[0] != '.' {
        SkipIsFirstLabel(h[1..]);
      }
    }
  }

  lemma OneCharacter(c: char, x: string)
    ensures [c] + x == "*" <==> c == '*' && x == ""
  {
    if [c] + x == "*" {
      assert |[c] + x| == 1 && ([c] + x)[0] == c;
    }
  }

  lemma StarIsFirstLabel(e: string)
    ensures StarLabel(e) <==> LowerLabels(e)[0] == "*"
    ensures StarLabel(e) && |e| == 1 ==> LowerLabels(e)[1..] == []
    ensures StarLabel(e) && |e| > 1 ==> LowerLabels(e)[1..] == LowerLabels(e[2..])
  {
    if e != "" {
      LowerLabelsStep(e);
      if e[0] != '.' {
        var x := LowerLabels(e[1..])[0];
        assert LowerLabels(e)[0] == [Lower(e[0])] + x;
        OneCharacter(Lower(e[0]), x);
        if e[1..] != "" {
          LowerLabelsStep(e[1..]);
          assert e[1..][1..] == e[2..];
          assert LowerLabels(e[1..])[0] == "" <==> e[1] == '.';
        }
      }
    }
  }

  lemma {:induction false} ScanIsMatch(e: string, h: string, star: bool)
    ensures Scan(e, h, star) <==> MatchFrom(LowerLabels(e), LowerLabels(h), star)
    decreases |e|
  {
    var es, hs := LowerLabels(e), LowerLabels(h);
    StarIsFirstLabel(e);
    if star && StarLabel(e) {
      SkipIsFirstLabel(h);
      var h' := SkipLabel(h);
      if |e| > 1 && h' != "" {
        ScanIsMatch(e[2..], h'[1..], true);
        MatchFromStart(LowerLabels(e[2..]), LowerLabels(h'[1..]));
      }
    } else {
      if e != "" { LowerLabelsStep(e); }
      if h != "" { LowerLabelsStep(h); }
      if e != "" && h != "" && e[0] == '.' && h[0] == '.' {
        ScanIsMatch(e[1..], h[1..], true);
        MatchFromStart(LowerLabels(e[1..]), LowerLabels(h[1..]));
      } else if !LabelEnds(e) && !LabelEnds(h) {
        ScanIsMatch(e[1..], h[1..], false);
        LowerIsSame(e[0], h[0]);
        var x, y := LowerLabels(e[1..])[0], LowerLabels(h[1..])[0];
        assert es[0] == [Lower(e[0])] + x && hs[0] == [Lower(h[0])] + y;
        assert es[0] == hs[0] <==> Lower(e[0]) == Lower(h[0]) && x == y by {
          assert es[0][1..] == x && hs[0][1..] == y;
        }
      }
    }
  }

  /** Splitting and comparing labels is the same as scanning both strings once. */
  lemma MatchingIsScanning(hostexpr: string, hostname: string)
    ensures Matches(hostexpr, hostname) <==> Scan(hostexpr, hostname, true)
  {
    ScanIsMatch(hostexpr, hostname, true);
    MatchFromStart(LowerLabels(hostexpr), LowerLabels(hostname));
  }

  // ---------------------------------------------------------------- laws of matching

  predicate SameButCase(a: string, b: string) {
    |a| == |b| && forall i :: 0 <= i < |a| ==> SameChar(a[i], b[i])
  }

  lemma LowerAllIsSame(a: string, b: string)
    ensures LowerAll(a) == LowerAll(b) <==> SameButCase(a, b)
  {
    forall i | 0 <= i < |a| && i < |b| ensures LowerAll(a)[i] == LowerAll(b)[i] <==> SameChar(a[i], b[i]) {
      LowerIsSame(a[i], b[i]);
    }
  }

  /** ASCII case of either side does not matter. */
  lemma CaseDoesNotMatter(e: string, e': string, h: string, h': string)
    requires SameButCase(e, e') && SameButCase(h, h')
    ensures Matches(e, h) <==> Matches(e', h')
  {
    LowerAllIsSame(e, e');
    LowerAllIsSame(h, h');
  }

  lemma {:induction false} LowerKeepsDots(s: string)
    ensures Dots(LowerAll(s)) == Dots(s)
  {
    if s != "" {
      assert LowerAll(s)[1..] == LowerAll(s[1..]);
      LowerKeepsDots(s[1..]);
    }
  }

  lemma {:induction false} LowerLabelwise(s: string)
    ensures |Labels(LowerAll(s))| == |Labels(s)|
    ensures forall i :: 0 <= i < |Labels(s)| ==> Labels(LowerAll(s))[i] == LowerAll(Labels(s)[i])
  {
    if s == "" {
      assert LowerAll("") == "";
    } else {
      LowerLabelsStep(s);
      LowerLabelwise(s[1..]);
      var rest := Labels(s[1..]);
      assert LowerAll("") == "";
      assert LowerAll([s[0]] + rest[0]) == [Lower(s[0])] + LowerAll(rest[0]);
    }
  }

  lemma LowerStar(l: string)
    ensures LowerAll(l) == "*" <==> l == "*"
  {
    if LowerAll(l) == "*" { assert |l| == 1 && LowerAll(l)[0] == '*' && Lower(l[0]) == '*'; }
    if l == "*" { assert LowerAll(l) == "*"; }
  }

  /** Matching, label by label of the names as they are: a star, or the same but for case. */
  lemma MatchesLabelwise(e: string, h: string)
    ensures Matches(e, h) <==>
              && |Labels(e)| == |Labels(h)|
              && forall i :: 0 <= i < |Labels(e)| ==> Labels(e)[i] == "*" || SameButCase(Labels(e)[i], Labels(h)[i])
  {
    LowerLabelwise(e);
    LowerLabelwise(h);
    if |Labels(e)| == |Labels(h)| {
      forall i | 0 <= i < |Labels(e)|
        ensures LabelMatches(LowerLabels(e)[i], LowerLabels(h)[i])
           <==> Labels(e)[i] == "*" || SameButCase(Labels(e)[i], Labels(h)[i])
      {
        LowerStar(Labels(e)[i]);
        LowerAllIsSame(Labels(e)[i], Labels(h)[i]);
      }
    }
  }

  /** A pattern without star labels matches exactly the names that are the same but for case. */
  lemma WithoutStarIsEquality(e: string, h: string)
    requires forall i :: 0 <= i < |Labels(e)| ==> Labels(e)[i] != "*"
    ensures Matches(e, h) <==> SameButCase(e, h)
  {
    LowerLabelwise(e);
    forall i | 0 <= i < |Labels(e)| ensures LowerLabels(e)[i] != "*" {
      LowerStar(Labels(e)[i]);
    }
    LowerAllIsSame(e, h);
    if Matches(e, h) {
      assert forall i :: 0 <= i < |LowerLabels(e)| ==> LabelMatches(LowerLabels(e)[i], LowerLabels(h)[i]);
      assert LowerLabels(e) == LowerLabels(h);
      LabelsRejoin(LowerAll(e));
      LabelsRejoin(LowerAll(h));
    }
  }

  /** A star stands for one whole label, so a pattern only matches names with as many dots. */
  lemma StarIsOneLabel(e: string, h: string)
    ensures Matches(e, h) ==> Dots(e) == Dots(h)
    ensures Matches("*", h) <==> Dots(h) == 0
  {
    LabelsRejoin(LowerAll(e));
    LabelsRejoin(LowerAll(h));
    LowerKeepsDots(e);
    LowerKeepsDots(h);
    assert LowerAll("*") == "*";
    LabelOnly("*");
  }

  /** Replacing any label of a matching pattern by a star keeps the match. */
  lemma StarKeepsMatch(e: string, h: string, i: nat)
    requires Matches(e, h) && i < |Labels(e)|
    ensures Matches(Rejoin(Labels(e)[i := "*"]), h)
  {
    LabelsRejoin(e);
    var ls := Labels(e)[i := "*"];
    RejoinLabels(ls);
    LowerLabelwise(e);
    LowerLabelwise(Rejoin(ls));
    var es, es', hs := Labels(LowerAll(e)), Labels(LowerAll(Rejoin(ls))), Labels(LowerAll(h));
    forall j | 0 <= j < |es'| ensures LabelMatches(es'[j], hs[j]) {
      assert LabelMatches(es[j], hs[j]);
      if j == i {
        assert LowerAll("*") == "*";
      }
    }
  }
}
