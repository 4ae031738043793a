// policy.go, matchesDomainPolicy: names matched by string suffix, and the
// reading of that as matching by labels.
module Domains {
  // strings.ToLower on ASCII letters.
  function LowerChar(c: char): char {
    if 'A' <= c <= 'Z' then (c as int + 32) as char else c
  }

  function ToLower(s: string): (r: string)
    ensures |r| == |s|
  {
    seq(|s|, i requires 0 <= i < |s| => LowerChar(s[i]))
  }

  predicate HasPrefix(s: string, prefix: string) { prefix <= s }

  predicate HasSuffix(s: string, suffix: string) {
    |suffix| <= |s| && s[|s| - |suffix|..] == suffix
  }

  function TrimSuffix(s: string, suffix: string): string {
    if HasSuffix(s, suffix) then s[..|s| - |suffix|] else s
  }

  function TrimPrefix(s: string, prefix: string): string {
    if HasPrefix(s, prefix) then s[|prefix|..] else s
  }

  // Lower case, without one trailing dot.
  function Normal(s: string): string { TrimSuffix(ToLower(s), ".") }

  // One normalised pattern against one normalised name.
  predicate PatternMatches(pattern: string, domain: string) {
    || pattern == domain
    || (HasPrefix(pattern, ".") && HasSuffix(domain, pattern))
    || (HasPrefix(pattern, "*.") && HasSuffix(domain, TrimPrefix(pattern, "*")))
  }

  ghost predicate SomeMatches(patterns: seq<string>, domain: string) {
    exists i :: 0 <= i < |patterns| && PatternMatches(Normal(patterns[i]), Normal(domain))
  }

  method MatchesDomainPolicy(patterns: seq<string>, domain: string) returns (matches: bool)
    ensures matches == SomeMatches(patterns, domain)
  {
    var name := TrimSuffix(ToLower(domain), ".");
    for i := 0 to |patterns|
      invariant forall k :: 0 <= k < i ==> !PatternMatches(Normal(patterns[k]), name)
    {
      var pattern := TrimSuffix(ToLower(patterns[i]), ".");
      if pattern == name {
        return true;
      } else if HasPrefix(pattern, ".") && HasSuffix(name, pattern) {
        return true;
      } else if HasPrefix(pattern, "*.") && HasSuffix(name, TrimPrefix(pattern, "*")) {
        return true;
      }
    }
    return false;
  }

  // ---- Labels ----

  // One more character in front.
  function LabelsAfter(c: char, rest: seq<string>): seq<string>
    requires rest != []
  {
    if c == '.' then [""] + rest else [[c] + rest[0]] + rest[1..]
  }

  // The labels of a name: what lies between its dots.
  function Labels(s: string): (labels: seq<string>)
    ensures labels != []
  {
    if s == "" then [""]
    else
      LabelsAfter(s[0], Labels(s[1..]))
  }

  function Join(labels: seq<string>): string
    requires |labels| >= 1
  {
    if |labels| == 1 then labels[0] else labels[0] + "." + Join(labels[1..])
  }

  lemma JoinAfter(c: char, rest: seq<string>)
    requires rest != []
    ensures Join(LabelsAfter(c, rest)) == [c] + Join(rest)
  {
    if c == '.' {
      assert ([""] + rest)[1..] == rest;
      assert "" + "." + Join(rest) == [c] + Join(rest);
    } else if |rest| > 1 {
      var r := [[c] + rest[0]] + rest[1..];
      assert r[1..] == rest[1..];
      assert ([c] + rest[0]) + "." + Join(rest[1..]) == [c] + (rest[0] + "." + Join(rest[1..]));
    }
  }

  lemma {:induction false} JoinLabels(s: string)
    ensures Join(Labels(s)) == s
  {
    if s != "" {
      JoinLabels(s[1..]);
      JoinAfter(s[0], Labels(s[1..]));
    }
  }

  lemma LabelsCons(c: char, s: string)
    ensures Labels([c] + s) == LabelsAfter(c, Labels(s))
  {
    assert ([c] + s)[1..] == s;
  }

  lemma LabelsAfterAppend(c: char, a: seq<string>, b: seq<string>)
    requires |a| >= 1 && |b| >= 1
    ensures LabelsAfter(c, a + b) == LabelsAfter(c, a) + b
  {
  }

  lemma {:induction false} LabelsOfDotted(y: string, x: string)
    ensures Labels(y + "." + x) == Labels(y) + Labels(x)
  {
    if y == "" {
      LabelsCons('.', x);
      assert y + "." + x == ['.'] + x;
    } else {
      var rest := y[1..] + "." + x;
      assert y + "." + x == [y[0]] + rest && y == [y[0]] + y[1..];
      LabelsCons(y[0], rest);
      LabelsCons(y[0], y[1..]);
      LabelsOfDotted(y[1..], x);
      LabelsAfterAppend(y[0], Labels(y[1..]), Labels(x));
    }
  }

  lemma {:induction false} JoinAppend(a: seq<string>, b: seq<string>)
    requires |a| >= 1 && |b| >= 1
    ensures Join(a + b) == Join(a) + "." + Join(b)
  {
    if |a| == 1 {
      assert (a + b)[1..] == b;
    } else {
      assert (a + b)[1..] == a[1..] + b;
      JoinAppend(a[1..], b);
    }
  }

  predicate ProperLabelSuffix(x: string, domain: string) {
    |Labels(x)| < |Labels(domain)| && Labels(domain)[|Labels(domain)| - |Labels(x)|..] == Labels(x)
  }

  lemma DottedSuffixGivesLabels(x: string, domain: string)
    requires HasSuffix(domain, "." + x)
    ensures ProperLabelSuffix(x, domain)
  {
    var y := domain[..|domain| - |x| - 1];
    assert domain == y + "." + x;
    LabelsOfDotted(y, x);
    assert (Labels(y) + Labels(x))[|Labels(y)|..] == Labels(x);
  }

  lemma LabelsGiveDottedSuffix(x: string, domain: string)
    requires ProperLabelSuffix(x, domain)
    ensures HasSuffix(domain, "." + x)
  {
    var a := Labels(domain)[..|Labels(domain)| - |Labels(x)|];
    assert Labels(domain) == a + Labels(x);
    JoinAppend(a, Labels(x));
    JoinLabels(domain);
    JoinLabels(x);
    EndsWith(Join(a), x);
  }

  lemma EndsWith(y: string, x: string)
    ensures HasSuffix(y + "." + x, "." + x)
  {
    assert (y + "." + x)[|y|..] == "." + x;
  }

  lemma DottedSuffixIsLabelSuffix(x: string, domain: string)
    ensures HasSuffix(domain, "." + x) <==> ProperLabelSuffix(x, domain)
  {
    if HasSuffix(domain, "." + x) { DottedSuffixGivesLabels(x, domain); }
    if ProperLabelSuffix(x, domain) { LabelsGiveDottedSuffix(x, domain); }
  }

  // A wildcard pattern, ".x" or "*.x", takes exactly the names that end in
  // the labels of x and have at least one label more; any other pattern takes
  // exactly the name it spells.
  lemma WildcardsMatchByLabels(pattern: string, domain: string)
    ensures PatternMatches(pattern, domain) <==>
      if HasPrefix(pattern, ".") then ProperLabelSuffix(pattern[1..], domain)
      else if HasPrefix(pattern, "*.") then ProperLabelSuffix(pattern[2..], domain)
      else Labels(pattern) == Labels(domain)
  {
    if HasPrefix(pattern, ".") {
      assert pattern == "." + pattern[1..];
      DottedSuffixIsLabelSuffix(pattern[1..], domain);
    } else if HasPrefix(pattern, "*.") {
      assert TrimPrefix(pattern, "*") == "." + pattern[2..];
      DottedSuffixIsLabelSuffix(pattern[2..], domain);
      if pattern == domain {
        assert domain[1..] == TrimPrefix(pattern, "*");
      }
    } else {
      JoinLabels(pattern);
      JoinLabels(domain);
    }
  }
  lemma {:induction false} LabelsHaveNoDots(s: string)
    ensures forall i :: 0 <= i < |Labels(s)| ==> '.' !in Labels(s)[i]
  {
    if s != "" { LabelsHaveNoDots(s[1..]); }
  }

  // ---- Names as they are written ----

  // The same letter, perhaps one of them the capital of the other.
  predicate SameLetter(c: char, d: char) { c == d || CapitalOf(c, d) || CapitalOf(d, c) }

  predicate CapitalOf(upper: char, lower: char) {
    'A' <= upper <= 'Z' && 'a' <= lower <= 'z' && upper as int - 'A' as int == lower as int - 'a' as int
  }

  predicate SameUpToCase(s: string, t: string) {
    |s| == |t| && forall i :: 0 <= i < |s| ==> SameLetter(s[i], t[i])
  }

  lemma LowerCharIff(c: char, d: char)
    ensures LowerChar(c) == LowerChar(d) <==> SameLetter(c, d)
    ensures LowerChar(c) == '.' <==> c == '.'
    ensures LowerChar(c) == '*' <==> c == '*'
  {
  }

  lemma ToLowerIff(s: string, t: string)
    ensures ToLower(s) == ToLower(t) <==> SameUpToCase(s, t)
  {
    forall i | 0 <= i < |s| && |s| == |t| ensures ToLower(s)[i] == ToLower(t)[i] <==> SameLetter(s[i], t[i]) {
      LowerCharIff(s[i], t[i]);
    }
    if ToLower(s) == ToLower(t) {
      assert |s| == |t|;
      assert forall i :: 0 <= i < |s| ==> ToLower(s)[i] == ToLower(t)[i];
    }
  }

  // Without its last character if that is a dot.
  function Bare(s: string): string { if s != "" && s[|s| - 1] == '.' then s[..|s| - 1] else s }

  lemma NormalIsLowerBare(s: string)
    ensures Normal(s) == ToLower(Bare(s))
  {
    if s != "" {
      LowerCharIff(s[|s| - 1], '.');
      assert ToLower(s)[|s| - 1..] == [LowerChar(s[|s| - 1])];
      assert ToLower(s)[..|s| - 1] == ToLower(s[..|s| - 1]);
    }
  }

  ghost predicate Lowered(a: seq<string>, low: seq<string>) {
    |low| == |a| && forall i :: 0 <= i < |a| ==> low[i] == ToLower(a[i])
  }

  lemma {:induction false} LowerLabels(s: string)
    ensures Lowered(Labels(s), Labels(ToLower(s)))
  {
    if s != "" {
      LowerLabels(s[1..]);
      assert ToLower(s)[1..] == ToLower(s[1..]);
      LowerAfter(s[0], Labels(s[1..]), Labels(ToLower(s[1..])));
    }
  }

  lemma LowerAfter(c: char, rest: seq<string>, low: seq<string>)
    requires rest != [] && Lowered(rest, low)
    ensures Lowered(LabelsAfter(c, rest), LabelsAfter(LowerChar(c), low))
  {
    LowerCharIff(c, '.');
    assert ToLower([c] + rest[0]) == [LowerChar(c)] + ToLower(rest[0]);
    assert ToLower("") == "";
  }

  // The labels of x, up to case, are the last of the domain's, with more in
  // front.
  predicate LabelsAlike(x: seq<string>, domain: seq<string>) {
    |x| < |domain| && forall i :: 0 <= i < |x| ==> SameUpToCase(x[i], domain[|domain| - |x| + i])
  }

  lemma SuffixUpToCase(x: string, domain: string)
    ensures ProperLabelSuffix(ToLower(x), ToLower(domain)) <==> LabelsAlike(Labels(x), Labels(domain))
  {
    LowerLabels(x);
    LowerLabels(domain);
    LoweredSuffix(Labels(x), Labels(domain), Labels(ToLower(x)), Labels(ToLower(domain)));
  }

  lemma LoweredSuffix(a: seq<string>, b: seq<string>, la: seq<string>, lb: seq<string>)
    requires Lowered(a, la) && Lowered(b, lb)
    ensures |la| < |lb| && lb[|lb| - |la|..] == la <==> LabelsAlike(a, b)
  {
    if |a| < |b| {
      var k := |b| - |a|;
      forall i | 0 <= i < |a| ensures la[i] == lb[k..][i] <==> SameUpToCase(a[i], b[k + i]) {
        ToLowerIff(a[i], b[k + i]);
      }
      assert lb[k..] == la <==> forall i :: 0 <= i < |a| ==> la[i] == lb[k..][i];
    }
  }

  // What a pattern matches, for pattern and name as they are written: case
  // and one trailing dot make no difference, wildcards go by labels.
  lemma NamesMatchByLabels(pattern: string, domain: string)
    ensures var p, d := Bare(pattern), Bare(domain);
      PatternMatches(Normal(pattern), Normal(domain)) <==>
        if HasPrefix(p, ".") then LabelsAlike(Labels(p[1..]), Labels(d))
        else if HasPrefix(p, "*.") then LabelsAlike(Labels(p[2..]), Labels(d))
        else SameUpToCase(p, d)
  {
    var p, d := Bare(pattern), Bare(domain);
    NormalIsLowerBare(pattern);
    NormalIsLowerBare(domain);
    WildcardsMatchByLabels(ToLower(p), ToLower(d));
    LowerPrefixes(p);
    if HasPrefix(p, ".") {
      SuffixUpToCase(p[1..], d);
    } else if HasPrefix(p, "*.") {
      SuffixUpToCase(p[2..], d);
    } else {
      ToLowerIff(p, d);
      JoinLabels(ToLower(p));
      JoinLabels(ToLower(d));
    }
  }

  lemma LowerPrefixes(p: string)
    ensures HasPrefix(ToLower(p), ".") <==> HasPrefix(p, ".")
    ensures HasPrefix(ToLower(p), "*.") <==> HasPrefix(p, "*.")
    ensures |p| >= 1 ==> ToLower(p)[1..] == ToLower(p[1..])
    ensures |p| >= 2 ==> ToLower(p)[2..] == ToLower(p[2..])
  {
    if |p| >= 1 { LowerCharIff(p[0], '.'); }
    if |p| >= 2 { LowerCharIff(p[1], '.'); }
  }

  // So a policy's answer is the same for any spelling of name and patterns.
  lemma SpellingDoesNotMatter(patterns: seq<string>, domain: string, others: seq<string>, other: string)
    requires SameUpToCase(Bare(domain), Bare(other))
    requires |patterns| == |others|
    requires forall i :: 0 <= i < |patterns| ==> SameUpToCase(Bare(patterns[i]), Bare(others[i]))
    ensures SomeMatches(patterns, domain) <==> SomeMatches(others, other)
  {
    SameNormal(domain, other);
    forall i | 0 <= i < |patterns| ensures Normal(patterns[i]) == Normal(others[i]) {
      SameNormal(patterns[i], others[i]);
    }
  }

  lemma SameNormal(s: string, t: string)
    ensures Normal(s) == Normal(t) <==> SameUpToCase(Bare(s), Bare(t))
  {
    NormalIsLowerBare(s);
    NormalIsLowerBare(t);
    ToLowerIff(Bare(s), Bare(t));
  }

  lemma CapitalsAndDotMatch()
    ensures SomeMatches(["example.com"], "EXAMPLE.COM.")
    ensures !SomeMatches(["example.com"], "EXAMPLE.COM..")
  {
    assert Bare("EXAMPLE.COM.") == "EXAMPLE.COM" && Bare("example.com") == "example.com";
    assert Bare("EXAMPLE.COM..") == "EXAMPLE.COM.";
    assert SameUpToCase("example.com", "EXAMPLE.COM");
    NamesMatchByLabels("example.com", "EXAMPLE.COM.");
    NamesMatchByLabels("example.com", "EXAMPLE.COM..");
    assert PatternMatches(Normal(["example.com"][0]), Normal("EXAMPLE.COM."));
  }
}
