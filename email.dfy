/** The email shape registration accepts: the regular expression
    ^[\w-\.]+@([\w-]+\.)+[\w-]{2,4}$ under java.util.regex, where \w is
    [a-zA-Z_0-9]. It is written twice: as a recognizer that splits the
    address on '@' and on '.', and as the set of strings the expression
    describes; the two are proved to accept the same strings. */
module EmailFormat {

  /** \w: an ASCII letter, a digit or '_'. */
  predicate IsWordChar(c: char) {
    ('a' <= c <= 'z') || ('A' <= c <= 'Z') || ('0' <= c <= '9') || c == '_'
  }

  /** [\w-\.]: the characters of the local part. */
  predicate IsLocalChar(c: char) {
    IsWordChar(c) || c == '-' || c == '.'
  }

  /** [\w-]: the characters of a domain label. */
  predicate IsLabelChar(c: char) {
    IsWordChar(c) || c == '-'
  }

  /** [\w-\.]+ */
  predicate IsLocalPart(s: string) {
    s != [] && forall k :: 0 <= k < |s| ==> IsLocalChar(s[k])
  }

  /** [\w-]+ */
  predicate IsLabel(s: string) {
    s != [] && forall k :: 0 <= k < |s| ==> IsLabelChar(s[k])
  }

  /** [\w-]{2,4} */
  predicate IsTopLabel(s: string) {
    2 <= |s| <= 4 && IsLabel(s)
  }

  // ---------------------------------------------------------------------
  // The set of strings the regular expression describes

  /** ([\w-]+\.)+ spelled out: each label followed by a dot. */
  function Dotted(labels: seq<string>): string {
    if labels == [] then [] else labels[0] + "." + Dotted(labels[1..])
  }

  ghost predicate EmailParts(s: string, local: string, labels: seq<string>, top: string) {
    && s == local + "@" + Dotted(labels) + top
    && IsLocalPart(local)
    && |labels| >= 1
    && (forall i :: 0 <= i < |labels| ==> IsLabel(labels[i]))
    && IsTopLabel(top)
  }

  ghost predicate MatchesEmailPattern(s: string) {
    exists local, labels, top :: EmailParts(s, local, labels, top)
  }

  // ---------------------------------------------------------------------
  // The recognizer

  /** The pieces of s between occurrences of c (String.split without the
      dropping of trailing empty pieces). */
  function Split(s: string, c: char): (r: seq<string>)
    ensures |r| >= 1
    ensures forall i :: 0 <= i < |r| ==> c !in r[i]
    ensures Join(r, c) == s
  {
    if s == [] then [[]]
    else
      var rest := Split(s[1..], c);
      if s[0] == c then
        assert s == [c] + s[1..];
        [[]] + rest
      else
        assert s == [s[0]] + s[1..];
        assert Join([[s[0]] + rest[0]] + rest[1..], c) == [s[0]] + Join(rest, c);
        [[s[0]] + rest[0]] + rest[1..]
  }

  /** The pieces put back together with c between them. */
  function Join(parts: seq<string>, c: char): string
    requires |parts| >= 1
  {
    if |parts| == 1 then parts[0] else parts[0] + [c] + Join(parts[1..], c)
  }

  /** The recognizer the registration guard uses: one '@' with a non-empty
      local part before it, and a domain of at least two non-empty labels
      of which the last has two to four characters. */
  predicate IsValidEmail(s: string) {
    var halves := Split(s, '@');
    && |halves| == 2
    && IsLocalPart(halves[0])
    && var labels := Split(halves[1], '.');
    && |labels| >= 2
    && (forall i :: 0 <= i < |labels| - 1 ==> IsLabel(labels[i]))
    && IsTopLabel(labels[|labels| - 1])
  }

  // ---------------------------------------------------------------------
  // Splitting undoes joining

  lemma {:induction false} SplitNoSep(a: string, c: char)
    requires c !in a
    ensures Split(a, c) == [a]
  {
    if a != [] {
      assert c !in a[1..];
      SplitNoSep(a[1..], c);
      assert [a[0]] + a[1..] == a;
    }
  }

  lemma {:induction false} SplitAtSep(a: string, b: string, c: char)
    requires c !in a
    ensures Split(a + [c] + b, c) == [a] + Split(b, c)
  {
    if a == [] {
      assert (a + [c] + b)[1..] == b;
    } else {
      assert (a + [c] + b)[1..] == a[1..] + [c] + b;
      assert c !in a[1..];
      SplitAtSep(a[1..], b, c);
      assert [a[0]] + a[1..] == a;
    }
  }

  lemma {:induction false} SplitJoin(parts: seq<string>, c: char)
    requires |parts| >= 1
    requires forall i :: 0 <= i < |parts| ==> c !in parts[i]
    ensures Split(Join(parts, c), c) == parts
  {
    if |parts| == 1 {
      SplitNoSep(parts[0], c);
    } else {
      SplitJoin(parts[1..], c);
      SplitAtSep(parts[0], Join(parts[1..], c), c);
      assert [parts[0]] + parts[1..] == parts;
    }
  }

  /** Joining with dots is the regular expression's label-dot repetition
      followed by the last label. */
  lemma {:induction false} JoinIsDotted(labels: seq<string>)
    requires |labels| >= 1
    ensures Join(labels, '.') == Dotted(labels[..|labels| - 1]) + labels[|labels| - 1]
  {
    if |labels| > 1 {
      JoinIsDotted(labels[1..]);
      assert labels[1..][..|labels| - 2] == labels[..|labels| - 1][1..];
    }
  }

  lemma LabelsHaveNoSeparators(s: string)
    requires IsLabel(s) || IsLocalPart(s)
    ensures '@' !in s
    ensures IsLabel(s) ==> '.' !in s
  {
  }

  lemma {:induction false} DottedHasNoAt(labels: seq<string>)
    requires forall i :: 0 <= i < |labels| ==> IsLabel(labels[i])
    ensures '@' !in Dotted(labels)
  {
    if labels != [] {
      LabelsHaveNoSeparators(labels[0]);
      DottedHasNoAt(labels[1..]);
    }
  }

  // ---------------------------------------------------------------------
  // The recognizer accepts exactly the strings of the regular expression

  lemma RecognizerSound(s: string)
    requires IsValidEmail(s)
    ensures MatchesEmailPattern(s)
  {
    var halves := Split(s, '@');
    var labels := Split(halves[1], '.');
    var n := |labels|;
    JoinIsDotted(labels);
    assert Join(halves, '@') == s;
    assert Join(halves[1..], '@') == halves[1];
    assert s == halves[0] + ['@'] + halves[1];
    assert EmailParts(s, halves[0], labels[..n - 1], labels[n - 1]);
  }

  lemma RecognizerComplete(s: string, local: string, labels: seq<string>, top: string)
    requires EmailParts(s, local, labels, top)
    ensures IsValidEmail(s)
  {
    var all := labels + [top];
    assert all[..|all| - 1] == labels;
    JoinIsDotted(all);
    var domain := Join(all, '.');
    forall i | 0 <= i < |all| ensures '.' !in all[i] && IsLabel(all[i]) {
      if i < |labels| { assert all[i] == labels[i]; }
      LabelsHaveNoSeparators(all[i]);
    }
    SplitJoin(all, '.');
    LabelsHaveNoSeparators(local);
    LabelsHaveNoSeparators(top);
    DottedHasNoAt(labels);
    assert '@' !in domain;
    assert s == local + "@" + domain;
    SplitAtSep(local, domain, '@');
    SplitNoSep(domain, '@');
    assert Split(s, '@') == [local, domain];
  }

  /** The two readings of the email check agree on every string. */
  lemma ValidEmailIffPattern(s: string)
    ensures IsValidEmail(s) <==> MatchesEmailPattern(s)
  {
    if IsValidEmail(s) {
      RecognizerSound(s);
    }
    if MatchesEmailPattern(s) {
      var local, labels, top :| EmailParts(s, local, labels, top);
      RecognizerComplete(s, local, labels, top);
    }
  }

  /** The seeded admin address is accepted. */
  lemma AcceptsAdminAddress()
    ensures IsValidEmail("admin@example.com")
  {
    assert Dotted(["example"]) == "example.";
    assert EmailParts("admin@example.com", "admin", ["example"], "com");
    RecognizerComplete("admin@example.com", "admin", ["example"], "com");
  }
}
