/**
 * The address check `isValidEmail` and the `String.prototype.trim` that
 * `validateForm` applies before calling it.
 *
 * The regular expression `^[^\s@]+@[^\s@]+\.[^\s@]{2,}$` is stated as an
 * explicit predicate: the local part runs up to the first `@`; everything
 * after it is the domain, which must consist of address characters and
 * contain a dot with at least one character before it and two after it.
 * Because `.` is itself an address character, the greedy `[^\s@]+` before
 * `\.` may backtrack to ANY such dot, so the domain needs just one.
 */
module Email {

  /** `email.length <= 254` in `isValidEmail`. */
  const MaxEmailLength: nat := 254

  /** The class `\s` of an ECMAScript regular expression, which is also the
      set of characters `trim` strips: WhiteSpace (TAB, VT, FF, ZWNBSP and the
      space separators) and LineTerminator (LF, CR, LS, PS). */
  predicate IsJsWhitespace(c: char) {
    c == '\t' || c == '\n' || c == '\U{B}' || c == '\U{C}' || c == '\r'
    || c == ' ' || c == '\U{A0}' || c == '\U{1680}'
    || ('\U{2000}' <= c <= '\U{200A}')
    || c == '\U{2028}' || c == '\U{2029}' || c == '\U{202F}' || c == '\U{205F}'
    || c == '\U{3000}' || c == '\U{FEFF}'
  }

  /** The class `[^\s@]`. */
  predicate IsAddressChar(c: char) {
    !IsJsWhitespace(c) && c != '@'
  }

  predicate AllAddressChars(s: string) {
    forall i :: 0 <= i < |s| ==> IsAddressChar(s[i])
  }

  predicate NoWhitespace(s: string) {
    forall i :: 0 <= i < |s| ==> !IsJsWhitespace(s[i])
  }

  /** Position of the first `c` in `s`, or |s| when there is none. */
  function IndexOf(s: string, c: char): (r: nat)
    ensures r <= |s|
    ensures r < |s| ==> s[r] == c
    ensures forall i :: 0 <= i < r ==> s[i] != c
  {
    if s == [] then 0
    else if s[0] == c then 0
    else 1 + IndexOf(s[1..], c)
  }

  /** `[^\s@]+\.[^\s@]{2,}` matches the whole of `domain`. */
  predicate IsDomain(domain: string) {
    AllAddressChars(domain) && exists p :: 1 <= p <= |domain| - 3 && domain[p] == '.'
  }

  /** `^[^\s@]+@[^\s@]+\.[^\s@]{2,}$` matches `s`. */
  predicate MatchesEmailPattern(s: string) {
    var at := IndexOf(s, '@');
    0 < at < |s| && AllAddressChars(s[..at]) && IsDomain(s[at + 1..])
  }

  /** `isValidEmail(email)`: the pattern matches and the length bound holds. */
  predicate IsValidEmail(email: string) {
    MatchesEmailPattern(email) && |email| <= MaxEmailLength
  }

  /** Every accepted address is `local@host.tld` with a non-empty local part
      and host, a top-level part of at least two characters, no whitespace
      and no `@` besides the separator, and at most 254 characters. */
  lemma ValidEmailSplits(s: string) returns (local: string, host: string, tld: string)
    requires IsValidEmail(s)
    ensures s == local + "@" + host + "." + tld
    ensures |local| >= 1 && |host| >= 1 && |tld| >= 2
    ensures AllAddressChars(local) && AllAddressChars(host) && AllAddressChars(tld)
    ensures |s| <= MaxEmailLength
  {
    var at := IndexOf(s, '@');
    var domain := s[at + 1..];
    var p :| 1 <= p <= |domain| - 3 && domain[p] == '.';
    local, host, tld := s[..at], domain[..p], domain[p + 1..];
    assert domain == host + "." + tld;
    assert s == local + "@" + domain;
  }

  /** Every such `local@host.tld` is accepted: the converse of ValidEmailSplits. */
  lemma JoinedEmailIsValid(local: string, host: string, tld: string)
    requires |local| >= 1 && |host| >= 1 && |tld| >= 2
    requires AllAddressChars(local) && AllAddressChars(host) && AllAddressChars(tld)
    requires |local| + |host| + |tld| + 2 <= MaxEmailLength
    ensures IsValidEmail(local + "@" + host + "." + tld)
  {
    var domain := host + "." + tld;
    var s := local + "@" + domain;
    assert s == local + "@" + host + "." + tld;
    var at := IndexOf(s, '@');
    assert s[|local|] == '@';
    assert forall i :: 0 <= i < |local| ==> s[i] == local[i];
    assert at == |local|;
    assert s[..at] == local;
    assert s[at + 1..] == domain;
    assert domain[|host|] == '.';
    assert AllAddressChars(domain) by {
      forall i | 0 <= i < |domain| ensures IsAddressChar(domain[i]) {
        if i < |host| {
          assert domain[i] == host[i];
        } else if i > |host| {
          assert domain[i] == tld[i - |host| - 1];
        }
      }
    }
  }

  /** An accepted address contains no whitespace and exactly one `@`. */
  lemma ValidEmailHasOneAt(s: string) returns (at: nat)
    requires IsValidEmail(s)
    ensures at < |s| && s[at] == '@'
    ensures forall i :: 0 <= i < |s| && s[i] == '@' ==> i == at
    ensures NoWhitespace(s)
  {
    at := IndexOf(s, '@');
    forall i | 0 <= i < |s| ensures !IsJsWhitespace(s[i]) && (s[i] == '@' ==> i == at) {
      if i < at {
        assert s[i] == s[..at][i];
      } else if i > at {
        assert s[i] == s[at + 1..][i - at - 1];
      }
    }
  }

  /** The position of the first non-whitespace character at or after `i`
      (`|s|` when there is none): where `trim` starts keeping. */
  function ContentStart(s: string, i: nat): (lo: nat)
    requires i <= |s|
    ensures i <= lo <= |s|
    ensures forall j :: i <= j < lo ==> IsJsWhitespace(s[j])
    ensures lo < |s| ==> !IsJsWhitespace(s[lo])
    decreases |s| - i
  {
    if i < |s| && IsJsWhitespace(s[i]) then ContentStart(s, i + 1) else i
  }

  /** The end of `s[lo..hi]` once its trailing whitespace is dropped:
      where `trim` stops keeping. */
  function ContentEnd(s: string, lo: nat, hi: nat): (end: nat)
    requires lo <= hi <= |s|
    ensures lo <= end <= hi
    ensures forall j :: end <= j < hi ==> IsJsWhitespace(s[j])
    ensures lo < end ==> !IsJsWhitespace(s[end - 1])
    decreases hi
  {
    if lo < hi && IsJsWhitespace(s[hi - 1]) then ContentEnd(s, lo, hi - 1) else hi
  }

  /** `trim`: leading and trailing whitespace removed. What is left is no
      longer than the input and neither starts nor ends with whitespace. */
  function Trim(s: string): (r: string)
    ensures |r| <= |s|
    ensures r != [] ==> !IsJsWhitespace(r[0]) && !IsJsWhitespace(r[|r| - 1])
  {
    var lo := ContentStart(s, 0);
    s[lo..ContentEnd(s, lo, |s|)]
  }

  /** `trim` keeps a contiguous slice of its input, removes only whitespace,
      and leaves no whitespace at either end of what it keeps. */
  lemma TrimIsSlice(s: string) returns (lo: nat, hi: nat)
    ensures lo <= hi <= |s| && Trim(s) == s[lo..hi]
    ensures forall i :: 0 <= i < |s| && (i < lo || hi <= i) ==> IsJsWhitespace(s[i])
    ensures lo < hi ==> !IsJsWhitespace(s[lo]) && !IsJsWhitespace(s[hi - 1])
  {
    lo := ContentStart(s, 0);
    hi := ContentEnd(s, lo, |s|);
  }

  /** A text trims to the empty string exactly when it is all whitespace. */
  lemma TrimEmptyIffBlank(s: string)
    ensures Trim(s) == [] <==> forall i :: 0 <= i < |s| ==> IsJsWhitespace(s[i])
  {
    var lo, hi := TrimIsSlice(s);
    if Trim(s) != [] {
      assert !IsJsWhitespace(s[lo]);
    }
  }

  /** `trim` leaves a text without whitespace untouched. */
  lemma TrimKeepsUnspaced(s: string)
    requires NoWhitespace(s)
    ensures Trim(s) == s
  {
    var lo, hi := TrimIsSlice(s);
  }

  /** An accepted address is unchanged by `trim`, so trimming before the
      check (as `validateForm` does) never rejects an address accepted without it. */
  lemma ValidEmailTrimmed(s: string)
    requires IsValidEmail(s)
    ensures Trim(s) == s && IsValidEmail(Trim(s))
  {
    var _ := ValidEmailHasOneAt(s);
    TrimKeepsUnspaced(s);
  }

  /** A short valid address is accepted; a top-level part that is too
      short, a domain without a dot, the empty string and an over-long
      address are rejected. */
  lemma EmailExamples()
    ensures IsValidEmail("a@b.co")
    ensures !IsValidEmail("a@b.c")
    ensures !IsValidEmail("a@b")
    ensures !IsValidEmail("")
    ensures forall s :: |s| > MaxEmailLength ==> !IsValidEmail(s)
  {
    assert IndexOf("a@b.co", '@') == 1;
    assert "a@b.co"[2..] == "b.co" && "b.co"[1] == '.';
    assert IndexOf("a@b.c", '@') == 1;
  }

  /** Whitespace in the local part, and a second `@`, are rejected. */
  lemma MalformedEmailExamples()
    ensures !IsValidEmail("a b@c.de")
    ensures !IsValidEmail("a@b@c.de")
  {
    assert IndexOf("a b@c.de", '@') == 3;
    assert "a b@c.de"[..3][1] == ' ';
    assert IndexOf("a@b@c.de", '@') == 1;
    assert "a@b@c.de"[2..][1] == '@';
  }

  /** A trailing no-break space (U+00A0, which an email input's value
      sanitizing keeps): `trim` removes it, while the untrimmed text is rejected. */
  lemma TrailingSpaceExample()
    ensures Trim("a@b.co\U{A0}") == "a@b.co"
    ensures !IsValidEmail("a@b.co\U{A0}")
  {
    var e, v := "a@b.co\U{A0}", "a@b.co";
    assert !IsJsWhitespace(e[0]) && ContentStart(e, 0) == 0;
    assert IsJsWhitespace(e[6]) && !IsJsWhitespace(e[5]);
    assert ContentEnd(e, 0, 6) == 6;
    assert e[..6] == v;
    if IsValidEmail(e) {
      var _ := ValidEmailHasOneAt(e);
    }
  }
}
