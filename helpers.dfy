/** The shared input helpers: sanitising free text, the e-mail shape check
    and the password length rule. */
module Helpers {
  import opened Js
  import Lists

  /** The argument of `sanitizeInput`: a string, or any other value, which is
      passed back untouched. */
  datatype Input = Str(s: string) | NonString(value: int)

  /** `replace(/[<>]/g, '')`. */
  function RemoveBrackets(s: string): (r: string)
    ensures |r| <= |s|
    ensures forall i :: 0 <= i < |r| ==> r[i] != '<' && r[i] != '>'
    ensures (forall i :: 0 <= i < |s| ==> s[i] != '<' && s[i] != '>') ==> r == s
  {
    if s == [] then []
    else (if s[0] == '<' || s[0] == '>' then [] else [s[0]]) + RemoveBrackets(s[1..])
  }

  /** Every code unit other than an angle bracket is kept, as often as it
      occurs in the input. */
  lemma {:induction false} RemoveBracketsKeepsOthers(s: string)
    ensures forall c :: c != '<' && c != '>' ==> multiset(RemoveBrackets(s))[c] == multiset(s)[c]
  {
    if s != [] {
      RemoveBracketsKeepsOthers(s[1..]);
      assert s == [s[0]] + s[1..];
    }
  }

  /** The global replace works left to right over the text: removing the
      brackets from two joined texts joins their bracket-free forms, so the
      kept code units stay in their order. */
  lemma {:induction false} RemoveBracketsAppend(a: string, b: string)
    ensures RemoveBrackets(a + b) == RemoveBrackets(a) + RemoveBrackets(b)
  {
    if a == [] {
      assert a + b == b;
    } else {
      assert (a + b)[0] == a[0];
      assert (a + b)[1..] == a[1..] + b;
      RemoveBracketsAppend(a[1..], b);
    }
  }

  /** The longest text `sanitizeInput` lets through. */
  const MaxInputLength: nat := 1000

  /** `sanitizeInput`: trim, drop every angle bracket, keep the first 1000
      code units; anything but a string comes back as it was. */
  function SanitizeInput(x: Input): (r: Input)
    ensures x.NonString? ==> r == x
    ensures x.Str? ==> r.Str? && |r.s| <= MaxInputLength
    ensures x.Str? ==> forall i :: 0 <= i < |r.s| ==> r.s[i] != '<' && r.s[i] != '>'
    ensures x.Str? ==> r.s <= RemoveBrackets(Trim(x.s))
    ensures x.Str? ==> |r.s| == if |RemoveBrackets(Trim(x.s))| < MaxInputLength
                                then |RemoveBrackets(Trim(x.s))| else MaxInputLength
  {
    match x
    case Str(s) => Str(Lists.Take(RemoveBrackets(Trim(s)), MaxInputLength))
    case NonString(_) => x
  }

  /** A string without edge white space, angle brackets or excess length is
      its own sanitised form. */
  lemma SanitizeKeepsCleanText(s: string)
    requires s == [] || (!IsSpace(s[0]) && !IsSpace(s[|s| - 1]))
    requires forall i :: 0 <= i < |s| ==> s[i] != '<' && s[i] != '>'
    requires |s| <= MaxInputLength
    ensures SanitizeInput(Str(s)) == Str(s)
  {
  }

  /** Brackets are removed after trimming, so white space they sat behind
      stays: the result can end in a space. */
  lemma SanitizeCanLeaveEdgeSpace()
    ensures SanitizeInput(Str("a <")) == Str("a ")
  {
    var s := "a <";
    assert s[0] == 'a' && s[2] == '<' && !IsSpace('a') && !IsSpace('<');
    assert Trim(s) == s;
    assert RemoveBrackets(s) == "a " by {
      assert s[1..] == " <" && " <"[1..] == "<" && "<"[1..] == "";
    }
  }

  /** A code unit of the regular expression class `[^\s@]`. */
  predicate Plain(c: char) {
    !IsSpace(c) && c != '@'
  }

  /** The regular expression `^[^\s@]+@[^\s@]+\.[^\s@]+$`, stated as the
      split it demands: an `@` at `i`, a `.` at `j` with at least one
      code unit on each side of each, and no white space and no other `@`. */
  ghost predicate MatchesEmailPattern(s: string) {
    exists i, j :: 0 < i && i + 1 < j < |s| - 1 && s[i] == '@' && s[j] == '.'
      && (forall k :: 0 <= k < |s| && k != i ==> Plain(s[k]))
  }

  /** The number of `@` in `s`. */
  function AtCount(s: string): nat {
    if s == [] then 0 else (if s[0] == '@' then 1 else 0) + AtCount(s[1..])
  }

  /** The position of the first `@`, or `|s|`. */
  function AtIndex(s: string): (i: nat)
    ensures i <= |s|
    ensures forall k :: 0 <= k < i ==> s[k] != '@'
    ensures i < |s| ==> s[i] == '@'
  {
    if s == [] || s[0] == '@' then 0 else 1 + AtIndex(s[1..])
  }

  /** `isValidEmail`: no white space, exactly one `@` with something before
      it, and after it a domain holding a `.` that is neither its first nor
      its last code unit. */
  function IsValidEmail(s: string): bool {
    var i := AtIndex(s);
    (forall k :: 0 <= k < |s| ==> !IsSpace(s[k]))
    && 0 < i < |s| && AtCount(s) == 1 && HasInnerDot(s[i + 1..])
  }

  /** A `.` that is neither the first nor the last code unit. */
  predicate HasInnerDot(d: string) {
    |d| >= 3 && '.' in d[1..|d| - 1]
  }

  lemma {:induction false} AtCountOne(s: string)
    requires AtIndex(s) < |s|
    ensures AtCount(s) == 1 <==> forall k :: AtIndex(s) < k < |s| ==> s[k] != '@'
  {
    if s[0] != '@' {
      AtCountOne(s[1..]);
      assert forall k :: AtIndex(s) < k < |s| ==> s[k] == s[1..][k - 1];
    } else {
      AtCountZero(s[1..]);
      assert forall k :: 0 < k < |s| ==> s[k] == s[1..][k - 1];
    }
  }

  lemma {:induction false} AtCountZero(s: string)
    ensures AtCount(s) == 0 <==> forall k :: 0 <= k < |s| ==> s[k] != '@'
  {
    if s != [] {
      AtCountZero(s[1..]);
      assert forall k :: 0 < k < |s| ==> s[k] == s[1..][k - 1];
    }
  }

  /** The check is the regular expression, in both directions. */
  lemma EmailCheckIsPattern(s: string)
    ensures IsValidEmail(s) <==> MatchesEmailPattern(s)
  {
    if IsValidEmail(s) {
      ValidEmailMatchesPattern(s);
    }
    if MatchesEmailPattern(s) {
      PatternIsValidEmail(s);
    }
  }

  lemma ValidEmailMatchesPattern(s: string)
    requires IsValidEmail(s)
    ensures MatchesEmailPattern(s)
  {
    var i := AtIndex(s);
    AtCountOne(s);
    var d := s[i + 1..];
    var m := d[1..|d| - 1];
    var q :| 0 <= q < |m| && m[q] == '.';
    var j := i + 2 + q;
    assert s[j] == '.';
  }

  lemma PatternIsValidEmail(s: string)
    requires MatchesEmailPattern(s)
    ensures IsValidEmail(s)
  {
    var a, j :| 0 < a && a + 1 < j < |s| - 1 && s[a] == '@' && s[j] == '.'
      && (forall k :: 0 <= k < |s| && k != a ==> Plain(s[k]));
    var i := AtIndex(s);
    assert i == a;
    assert forall k :: 0 <= k < |s| ==> !IsSpace(s[k]) by {
      forall k | 0 <= k < |s| ensures !IsSpace(s[k]) {
        if k != a {
          assert Plain(s[k]);
        }
      }
    }
    assert AtCount(s) == 1 by {
      AtCountOne(s);
      forall k | i < k < |s| ensures s[k] != '@' {
        assert Plain(s[k]);
      }
    }
    assert HasInnerDot(s[i + 1..]) by {
      var d := s[i + 1..];
      assert d[1..|d| - 1][j - i - 2] == s[j];
    }
  }

  const PasswordTooShort: string := "Password must be at least 6 characters"
  const PasswordTooLong: string := "Password must be less than 100 characters"

  /** `validatePassword`: push a message for each length rule broken; valid
      when none is. */
  method ValidatePassword(password: string) returns (isValid: bool, errors: seq<string>)
    ensures isValid <==> 6 <= |password| <= 100
    ensures isValid <==> errors == []
    ensures |password| < 6 ==> errors == [PasswordTooShort]
    ensures |password| > 100 ==> errors == [PasswordTooLong]
    ensures |errors| <= 1
  {
    errors := [];
    if |password| < 6 {
      errors := errors + [PasswordTooShort];
    }
    if |password| > 100 {
      errors := errors + [PasswordTooLong];
    }
    isValid := |errors| == 0;
  }
}
