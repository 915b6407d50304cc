/** Java's String.trim, the blank test the services apply to titles and
    message bodies, and the display-name rule of the DTO mappers. */
module Text {
  import opened Common

  /** String.trim() strips every character whose code is at most U+0020. */
  predicate IsSpaceLike(c: char) {
    c <= ' '
  }

  ghost predicate AllSpace(s: string) {
    forall k :: 0 <= k < |s| ==> IsSpaceLike(s[k])
  }

  /** Strips the leading space-like characters: the result is the longest
      suffix whose first character is not space-like. */
  function TrimStart(s: string): (r: string)
    ensures |r| <= |s| && r == s[|s| - |r|..]
    ensures forall k :: 0 <= k < |s| - |r| ==> IsSpaceLike(s[k])
    ensures r == [] || !IsSpaceLike(r[0])
  {
    if s == [] || !IsSpaceLike(s[0]) then s else TrimStart(s[1..])
  }

  /** Strips the trailing space-like characters. */
  function TrimEnd(s: string): (r: string)
    ensures |r| <= |s| && r == s[..|r|]
    ensures forall k :: |r| <= k < |s| ==> IsSpaceLike(s[k])
    ensures r == [] || !IsSpaceLike(r[|r| - 1])
  {
    if s == [] || !IsSpaceLike(s[|s| - 1]) then s else TrimEnd(s[..|s| - 1])
  }

  /** r is what is left of s once the all-space prefix s[..i] and the
      all-space suffix after r are cut away. */
  ghost predicate Pads(s: string, r: string, i: int) {
    && 0 <= i <= |s| - |r|
    && s[i..i + |r|] == r
    && (forall k :: 0 <= k < i ==> IsSpaceLike(s[k]))
    && (forall k :: i + |r| <= k < |s| ==> IsSpaceLike(s[k]))
  }

  /** String.trim(): the part of s between the space-like padding on both
      sides. */
  function Trim(s: string): string {
    TrimEnd(TrimStart(s))
  }

  /** What is left after trimming has no padding at either end, is empty
      exactly when s is all padding, and is s with the padding cut away. */
  lemma TrimSpec(s: string)
    ensures var r := Trim(s);
      && (r == [] || (!IsSpaceLike(r[0]) && !IsSpaceLike(r[|r| - 1])))
      && (r == [] <==> AllSpace(s))
      && Pads(s, r, |s| - |TrimStart(s)|)
  {
    var t := TrimStart(s);
    TrimPads(s, t, TrimEnd(t), |s| - |t|);
    TrimEnds(s);
    TrimEmpty(s);
  }

  lemma TrimEnds(s: string)
    ensures var r := Trim(s); r == [] || (!IsSpaceLike(r[0]) && !IsSpaceLike(r[|r| - 1]))
  {
    var t := TrimStart(s);
    var r := TrimEnd(t);
    if r != [] {
      assert r[0] == t[0];
    }
  }

  lemma TrimEmpty(s: string)
    ensures Trim(s) == [] <==> AllSpace(s)
  {
    var t := TrimStart(s);
    if TrimEnd(t) == [] {
      assert t == [];
    }
    if AllSpace(s) {
      assert t == [];
    }
  }

  lemma TrimPads(s: string, t: string, r: string, i: int)
    requires 0 <= i <= |s| && t == s[i..] && |r| <= |t| && r == t[..|r|]
    requires forall k :: 0 <= k < i ==> IsSpaceLike(s[k])
    requires forall k :: |r| <= k < |t| ==> IsSpaceLike(t[k])
    ensures Pads(s, r, i)
  {
    forall k | i + |r| <= k < |s| ensures IsSpaceLike(s[k]) {
      assert s[k] == t[k - i];
    }
    assert s[i..i + |r|] == r;
  }

  /** A null or trimmed-empty text, as `x == null || x.trim().isEmpty()`. */
  predicate IsBlank(s: Option<string>) {
    s.None? || Trim(s.value) == []
  }

  lemma TrimIdempotent(s: string)
    ensures Trim(Trim(s)) == Trim(s)
  {
    var r := Trim(s);
    TrimEnds(s);
    if r != [] {
      assert TrimStart(r) == r;
      assert TrimEnd(r) == r;
    }
  }

  /** The name the DTOs show for a user: lastName followed by firstName
      (a null part counts as empty), trimmed; the username when that is
      empty. */
  function DisplayName(firstName: Option<string>, lastName: Option<string>, username: string): string {
    var full := Trim(OrEmpty(lastName) + OrEmpty(firstName));
    if full == [] then username else full
  }

  /** The display name is the username exactly when the joined names are all
      padding; otherwise it is the joined names with the padding cut away. */
  lemma DisplayNameSpec(firstName: Option<string>, lastName: Option<string>, username: string)
    ensures var joined := OrEmpty(lastName) + OrEmpty(firstName);
      var r := DisplayName(firstName, lastName, username);
      && (AllSpace(joined) ==> r == username)
      && (!AllSpace(joined) ==>
            r != [] && !IsSpaceLike(r[0]) && !IsSpaceLike(r[|r| - 1]) && Pads(joined, r, |joined| - |TrimStart(joined)|))
  {
    var joined := OrEmpty(lastName) + OrEmpty(firstName);
    TrimSpec(joined);
    assert DisplayName(firstName, lastName, username) == if Trim(joined) == [] then username else Trim(joined);
  }
}
