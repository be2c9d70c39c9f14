/** The two input validators of utils/characterCheck.go, each a regular expression
    restated as a predicate on characters. The same two functions appear again, with
    the same text, in utils/magic.go; they are modelled once, here. */
module CharacterCheck {

  /** RE2's `\s`: tab, newline, form feed, carriage return and space, nothing else. */
  predicate IsSpace(c: char) {
    c == '\t' || c == '\n' || c == '\U{000C}' || c == '\r' || c == ' '
  }

  /** The class `[^\s@]`. */
  predicate IsPlain(c: char) {
    !IsSpace(c) && c != '@'
  }

  /** The class `[0-9_]`. */
  predicate IsDigitOrUnderscore(c: char) {
    '0' <= c <= '9' || c == '_'
  }

  /** `[^\s@]*`: no whitespace and no '@' anywhere in `s`. */
  predicate AllPlain(s: string) {
    forall k :: 0 <= k < |s| ==> IsPlain(s[k])
  }

  /** `[^\s@]+`. */
  predicate IsRun(s: string) {
    |s| > 0 && AllPlain(s)
  }

  /** `^[0-9_]*$`, matched the way the starred class consumes its input: one
      character of `[0-9_]` at a time until the end of the string. It accepts exactly
      the strings made of digits and underscores, the empty one included. */
  predicate NumericCheck(password: string): (ok: bool)
    ensures ok <==> forall k :: 0 <= k < |password| ==> IsDigitOrUnderscore(password[k])
  {
    password == [] || (IsDigitOrUnderscore(password[0]) && NumericCheck(password[1..]))
  }

  /** `^[^\s@]+@[^\s@]+\.[^\s@]+$`: the string splits at an '@' (index i) and a later
      '.' (index j) into three non-empty runs of `[^\s@]`. An accepted address holds
      exactly one '@', at least five characters and no whitespace. */
  predicate AlphanumericCheck(email: string): (ok: bool)
    ensures ok ==> CountOf(email, '@') == 1 && |email| >= 5
    ensures ok ==> forall k :: 0 <= k < |email| ==> !IsSpace(email[k])
  {
    AcceptedShape(email);
    exists i, j | 0 < i < |email| && i + 1 < j < |email| - 1 :: SplitsAt(email, i, j)
  }

  /** `email[..i]`, `email[i + 1..j]` and `email[j + 1..]` are runs of `[^\s@]`
      separated by an '@' at `i` and a '.' at `j`. */
  predicate SplitsAt(email: string, i: int, j: int)
    requires 0 < i < |email| && i + 1 < j < |email| - 1
  {
    email[i] == '@' && email[j] == '.' &&
    IsRun(email[..i]) && IsRun(email[i + 1..j]) && IsRun(email[j + 1..])
  }

  /** The domain side of an accepted address: no whitespace and no '@', and a '.'
      that is neither its first nor its last character. */
  predicate IsDomain(r: string) {
    AllPlain(r) && exists k | 0 < k < |r| - 1 :: r[k] == '.'
  }

  /** Number of occurrences of `c` in `s`. */
  function CountOf(s: string, c: char): nat {
    if s == [] then 0 else (if s[0] == c then 1 else 0) + CountOf(s[1..], c)
  }

  lemma {:induction false} CountOfAppend(a: string, b: string, c: char)
    ensures CountOf(a + b, c) == CountOf(a, c) + CountOf(b, c)
  {
    if a != [] {
      assert (a + b)[1..] == a[1..] + b;
      CountOfAppend(a[1..], b, c);
    } else {
      assert a + b == b;
    }
  }

  lemma {:induction false} CountOfAbsent(s: string, c: char)
    requires forall k :: 0 <= k < |s| ==> s[k] != c
    ensures CountOf(s, c) == 0
  {
    if s != [] {
      CountOfAbsent(s[1..], c);
    }
  }

  /** The empty password passes the numeric policy, because the pattern uses `*`. */
  lemma NumericCheckAcceptsEmpty()
    ensures NumericCheck("")
  {
  }

  /** The regular expression against its reading as "local part, '@', domain":
      for every split of a string at an '@', the check accepts it exactly when the
      left side is a non-empty run without whitespace or '@' and the right side is a
      domain. Both directions. */
  lemma AlphanumericCheckSplit(local: string, domain: string)
    ensures AlphanumericCheck(local + "@" + domain) <==> IsRun(local) && IsDomain(domain)
  {
    var email := local + "@" + domain;
    var at := |local|;
    assert email[at] == '@';
    assert email[..at] == local;
    assert email[at + 1..] == domain;
    if IsRun(local) && IsDomain(domain) {
      var k :| 0 < k < |domain| - 1 && domain[k] == '.';
      var j := at + 1 + k;
      assert email[at + 1..j] == domain[..k];
      assert email[j + 1..] == domain[k + 1..];
      assert email[j] == '.';
      assert IsRun(email[at + 1..j]);
      assert IsRun(email[j + 1..]);
      assert SplitsAt(email, at, j);
    }
    if AlphanumericCheck(email) {
      var i, j :| 0 < i < |email| && i + 1 < j < |email| - 1 && SplitsAt(email, i, j);
      PlainSplit(email, i, j);
      AtIsUnique(email, i, at);
      assert email[i + 1..][j - i - 1] == '.';
    }
  }

  /** The three runs and the '.' of an accepted split make one `[^\s@]*` tail. */
  lemma PlainSplit(email: string, i: int, j: int)
    requires 0 < i < |email| && i + 1 < j < |email| - 1
    requires email[j] == '.'
    requires IsRun(email[i + 1..j]) && IsRun(email[j + 1..])
    ensures AllPlain(email[i + 1..])
  {
    forall p | i + 1 <= p < |email|
      ensures IsPlain(email[p])
    {
      if p < j {
        assert email[p] == email[i + 1..j][p - i - 1];
      } else if j < p {
        assert email[p] == email[j + 1..][p - j - 1];
      }
    }
  }

  /** In a string whose characters other than the one at `i` are all plain, `i` is the
      only place an '@' can stand. */
  lemma AtIsUnique(s: string, i: int, p: int)
    requires 0 <= i < |s| && 0 <= p < |s|
    requires AllPlain(s[..i]) && AllPlain(s[i + 1..])
    requires s[p] == '@'
    ensures p == i
  {
  }

  /** A string that splits as the e-mail pattern demands holds exactly one '@' (the
      runs hold none), at least five characters (one each for the three runs, plus
      the '@' and the '.') and no whitespace. */
  lemma AcceptedShape(email: string)
    ensures (exists i, j | 0 < i < |email| && i + 1 < j < |email| - 1 :: SplitsAt(email, i, j)) ==>
      CountOf(email, '@') == 1 && |email| >= 5 &&
      forall k :: 0 <= k < |email| ==> !IsSpace(email[k])
  {
    if exists i, j | 0 < i < |email| && i + 1 < j < |email| - 1 :: SplitsAt(email, i, j) {
      var i, j :| 0 < i < |email| && i + 1 < j < |email| - 1 && SplitsAt(email, i, j);
      PlainSplit(email, i, j);
      var local, rest := email[..i], email[i + 1..];
      assert email == local + ([email[i]] + rest);
      CountOfAppend(local, [email[i]] + rest, '@');
      CountOfAppend([email[i]], rest, '@');
      CountOfAbsent(local, '@');
      CountOfAbsent(rest, '@');
      forall k | 0 <= k < |email|
        ensures !IsSpace(email[k])
      {
        if k < i {
          assert email[k] == local[k];
        } else if i < k {
          assert email[k] == rest[k - i - 1];
        }
      }
    }
  }

  /** A whitespace character anywhere makes both validators reject the string. */
  lemma SpaceRejected(s: string, p: int)
    requires 0 <= p < |s| && IsSpace(s[p])
    ensures !NumericCheck(s)
    ensures !AlphanumericCheck(s)
  {
  }
}
