/**
 * The two e-mail patterns of the client, written out as predicates on
 * strings: the loose `^[^\s@]+@[^\s@]+\.[^\s@]+$` of the login and verify
 * pages, and the strict `^[a-zA-Z0-9._%+-]+@[a-zA-Z0-9.-]+\.[a-zA-Z]{2,4}$`
 * of the profile page and the forgotten-password form. Each is stated once as the pattern reads and once as
 * a direct check, and the two are proved to agree.
 */
module EmailFormat {
  import opened Text

  /** The first index of `c` in `s`, or `|s|` when there is none. */
  function FirstIndex(s: string, c: char): (i: nat)
    ensures i <= |s|
    ensures i < |s| ==> s[i] == c
    ensures forall k :: 0 <= k < i ==> s[k] != c
  {
    if s == [] then 0
    else if s[0] == c then 0
    else 1 + FirstIndex(s[1..], c)
  }

  // ------------------------------------------------------------ loose form

  /** `[^\s@]`: neither white space nor "@". */
  predicate Plain(c: char) {
    !IsSpace(c) && c != '@'
  }

  /** Every character of `s[a..b]` is plain. */
  predicate PlainIn(s: string, a: nat, b: nat)
    requires a <= b <= |s|
  {
    forall k :: a <= k < b ==> Plain(s[k])
  }

  /** The loose pattern as it reads: a non-empty plain part, "@", a non-empty
      plain part, ".", and a non-empty plain part. */
  predicate LooseEmail(s: string) {
    exists i: nat, j: nat :: 0 < i && i + 1 < j && j + 1 < |s| && s[i] == '@' && s[j] == '.'
                   && PlainIn(s, 0, i) && PlainIn(s, i + 1, j) && PlainIn(s, j + 1, |s|)
  }

  /** `validateEmail` / the login pattern, as one pass over the string: the
      part before the first character that is not plain must be non-empty
      and end at an "@"; everything after it must be plain, with a "." that
      neither follows the "@" directly nor ends the string. */
  method CheckLooseEmail(s: string) returns (ok: bool)
    ensures ok <==> LooseEmail(s)
  {
    var at := 0;
    while at < |s| && Plain(s[at])
      invariant 0 <= at <= |s|
      invariant PlainIn(s, 0, at)
    {
      at := at + 1;
    }
    if at == 0 || at == |s| || s[at] != '@' {
      return false;
    }
    var k := at + 1;
    var dot := -1;
    while k < |s|
      invariant at + 1 <= k <= |s|
      invariant PlainIn(s, at + 1, k)
      invariant dot == -1 ==> forall m :: at + 1 < m < k ==> s[m] != '.'
      invariant dot != -1 ==> at + 1 < dot < k && s[dot] == '.' && forall m :: at + 1 < m < dot ==> s[m] != '.'
    {
      if !Plain(s[k]) {
        return false;
      }
      if s[k] == '.' && k > at + 1 && dot == -1 {
        dot := k;
      }
      k := k + 1;
    }
    ok := dot != -1 && dot + 1 < |s|;
    if ok {
      assert PlainIn(s, at + 1, dot) && PlainIn(s, dot + 1, |s|);
      assert 0 < at && at + 1 < dot && dot + 1 < |s| && s[at] == '@' && s[dot] == '.';
    }
  }

  // ----------------------------------------------------------- strict form

  predicate Letter(c: char) {
    ('a' <= c <= 'z') || ('A' <= c <= 'Z')
  }

  predicate Digit(c: char) {
    '0' <= c <= '9'
  }

  /** `[a-zA-Z0-9._%+-]`. */
  predicate LocalChar(c: char) {
    Letter(c) || Digit(c) || c == '.' || c == '_' || c == '%' || c == '+' || c == '-'
  }

  /** `[a-zA-Z0-9.-]`. */
  predicate DomainChar(c: char) {
    Letter(c) || Digit(c) || c == '.' || c == '-'
  }

  predicate LocalIn(s: string, a: nat, b: nat)
    requires a <= b <= |s|
  {
    forall k :: a <= k < b ==> LocalChar(s[k])
  }

  predicate DomainIn(s: string, a: nat, b: nat)
    requires a <= b <= |s|
  {
    forall k :: a <= k < b ==> DomainChar(s[k])
  }

  predicate LettersIn(s: string, a: nat, b: nat)
    requires a <= b <= |s|
  {
    forall k :: a <= k < b ==> Letter(s[k])
  }

  /** The strict pattern as it reads: local part, "@", domain, ".", and a
      top-level domain of two to four letters. */
  predicate StrictEmail(s: string) {
    exists i: nat, j: nat :: 0 < i && i + 1 < j && 2 <= |s| - j - 1 <= 4 && s[i] == '@' && s[j] == '.'
                   && LocalIn(s, 0, i) && DomainIn(s, i + 1, j) && LettersIn(s, j + 1, |s|)
  }

  /** The address with a top-level domain of exactly `n` letters: the
      character before them is ".", the first "@" comes after a non-empty
      local part, and a non-empty domain lies between the two. */
  predicate StrictWithTld(s: string, n: nat) {
    n + 1 <= |s|
    && var j := |s| - n - 1;
       var i := FirstIndex(s, '@');
       s[j] == '.' && LettersIn(s, j + 1, |s|)
       && 0 < i && i + 1 < j && LocalIn(s, 0, i) && DomainIn(s, i + 1, j)
  }

  /** The profile page's check: try the three lengths a top-level domain may
      have, locating the "@" by a search rather than by a guess. */
  function CheckStrictEmail(s: string): (ok: bool)
    ensures ok <==> StrictEmail(s)
  {
    StrictEmailIff(s);
    StrictWithTld(s, 2) || StrictWithTld(s, 3) || StrictWithTld(s, 4)
  }

  lemma StrictEmailIff(s: string)
    ensures StrictEmail(s) <==> StrictWithTld(s, 2) || StrictWithTld(s, 3) || StrictWithTld(s, 4)
  {
    if StrictEmail(s) {
      StrictHasTld(s);
    }
    if StrictWithTld(s, 2) {
      TldIsStrict(s, 2);
    } else if StrictWithTld(s, 3) {
      TldIsStrict(s, 3);
    } else if StrictWithTld(s, 4) {
      TldIsStrict(s, 4);
    }
  }

  /** A strict address's "@" is its first: the local part holds none. */
  lemma StrictHasTld(s: string)
    requires StrictEmail(s)
    ensures StrictWithTld(s, 2) || StrictWithTld(s, 3) || StrictWithTld(s, 4)
  {
    var i: nat, j: nat :| 0 < i && i + 1 < j && 2 <= |s| - j - 1 <= 4 && s[i] == '@' && s[j] == '.'
                && LocalIn(s, 0, i) && DomainIn(s, i + 1, j) && LettersIn(s, j + 1, |s|);
    FirstAtAfterLocal(s, i);
    var n := |s| - j - 1;
    assert StrictWithTld(s, n);
    assert n == 2 || n == 3 || n == 4;
  }

  /** An "@" preceded only by local-part characters is the first one. */
  lemma FirstAtAfterLocal(s: string, i: nat)
    requires i < |s| && s[i] == '@' && LocalIn(s, 0, i)
    ensures FirstIndex(s, '@') == i
  {
  }

  /** An address with a top-level domain of two to four letters has the
      strict form. */
  lemma TldIsStrict(s: string, n: nat)
    requires 2 <= n <= 4 && StrictWithTld(s, n)
    ensures StrictEmail(s)
  {
    var i := FirstIndex(s, '@');
    var j := |s| - n - 1;
    assert 0 < i && i + 1 < j && 2 <= |s| - j - 1 <= 4 && s[i] == '@' && s[j] == '.'
           && LocalIn(s, 0, i) && DomainIn(s, i + 1, j) && LettersIn(s, j + 1, |s|);
  }

  /** Every address of the strict form is of the loose form too: each
      character class of the strict pattern excludes white space and "@". */
  lemma StrictImpliesLoose(s: string)
    requires StrictEmail(s)
    ensures LooseEmail(s)
  {
    var i: nat, j: nat :| 0 < i && i + 1 < j && 2 <= |s| - j - 1 <= 4 && s[i] == '@' && s[j] == '.'
                 && LocalIn(s, 0, i) && DomainIn(s, i + 1, j) && LettersIn(s, j + 1, |s|);
    forall k | 0 <= k < |s| && k != i && k != j ensures Plain(s[k]) {
      ClassesArePlain(s[k]);
    }
    assert PlainIn(s, 0, i) && PlainIn(s, i + 1, j) && PlainIn(s, j + 1, |s|);
  }

  /** Each character class of the strict pattern holds only plain characters. */
  lemma ClassesArePlain(c: char)
    ensures LocalChar(c) || DomainChar(c) || Letter(c) ==> Plain(c)
  {
  }

  /** The loose form is strictly weaker: "a@b.c" passes it, but its
      top-level domain is one letter short of the strict form. */
  lemma LooseNotStrict(s: string)
    requires s == "a@b.c"
    ensures LooseEmail(s) && !StrictEmail(s)
  {
    assert 0 < 1 && 1 + 1 < 3 && 3 + 1 < |s| && s[1] == '@' && s[3] == '.'
           && PlainIn(s, 0, 1) && PlainIn(s, 2, 3) && PlainIn(s, 4, |s|);
  }
}
