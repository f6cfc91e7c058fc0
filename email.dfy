/**
 `validateEmailAddressStructure`: a full match of the email address against
 the pattern `^[a-zA-Z0-9._%+-]+@[a-zA-Z0-9.-]+\.[a-zA-Z]{2,}$`.

 The pattern is stated as `IsEmailShape`: the address is L + "@" + D + "." + T
 with a non-empty local part L, a non-empty domain D and a top-level part T of
 at least two ASCII letters. The validator finds the first `@` and the last
 `.` and checks the three parts around them; `ValidateEmailAddressStructure`
 is proved to agree with `IsEmailShape` on every string.
 */
module Email {
  import opened JsString

  datatype Option<T> = None | Some(value: T)

  predicate IsAsciiLetter(c: char) {
    'a' <= c <= 'z' || 'A' <= c <= 'Z'
  }

  predicate IsDigit(c: char) {
    '0' <= c <= '9'
  }

  /** The class `[a-zA-Z0-9._%+-]` of the local part. */
  predicate IsLocalChar(c: char) {
    IsAsciiLetter(c) || IsDigit(c) || c == '.' || c == '_' || c == '%' || c == '+' || c == '-'
  }

  /** The class `[a-zA-Z0-9.-]` of the domain. */
  predicate IsDomainChar(c: char) {
    IsAsciiLetter(c) || IsDigit(c) || c == '.' || c == '-'
  }

  /** `[a-zA-Z0-9._%+-]+` */
  predicate IsLocalPart(l: string) {
    |l| >= 1 && forall i | 0 <= i < |l| :: IsLocalChar(l[i])
  }

  /** `[a-zA-Z0-9.-]+` */
  predicate IsDomainPart(d: string) {
    |d| >= 1 && forall i | 0 <= i < |d| :: IsDomainChar(d[i])
  }

  /** `[a-zA-Z]{2,}` */
  predicate IsTopLevelPart(t: string) {
    |t| >= 2 && forall i | 0 <= i < |t| :: IsAsciiLetter(t[i])
  }

  /** `email` matches the pattern with its `@` at index `at` and the `.` before
      the top-level part at index `dot`. */
  predicate SplitsAt(email: string, at: nat, dot: nat) {
    && at < dot < |email|
    && email[at] == '@'
    && email[dot] == '.'
    && IsLocalPart(email[..at])
    && IsDomainPart(email[at + 1..dot])
    && IsTopLevelPart(email[dot + 1..])
  }

  /** The whole of `email` matches the pattern. */
  ghost predicate IsEmailShape(email: string) {
    exists at: nat, dot: nat :: SplitsAt(email, at, dot)
  }

  /** The index of the first occurrence of `c` in `s`, if any. */
  function IndexOf(s: string, c: char): (r: Option<nat>)
    ensures r.Some? ==> r.value < |s| && s[r.value] == c
    ensures r.Some? ==> forall k | 0 <= k < r.value :: s[k] != c
    ensures r.None? ==> forall k | 0 <= k < |s| :: s[k] != c
  {
    if s == [] then None
    else if s[0] == c then Some(0)
    else match IndexOf(s[1..], c)
      case None => None
      case Some(i) => Some(i + 1)
  }

  /** The index of the last occurrence of `c` in `s`, if any. */
  function LastIndexOf(s: string, c: char): (r: Option<nat>)
    ensures r.Some? ==> r.value < |s| && s[r.value] == c
    ensures r.Some? ==> forall k | r.value < k < |s| :: s[k] != c
    ensures r.None? ==> forall k | 0 <= k < |s| :: s[k] != c
  {
    if s == [] then None
    else if s[|s| - 1] == c then Some(|s| - 1)
    else LastIndexOf(s[..|s| - 1], c)
  }

  /** The validator: the `@` of a match is the first one and its `.` the last
      one (`SeparatorsOfMatch`), so only that split has to be tried. It
      accepts exactly the strings that match the pattern. */
  function ValidateEmailAddressStructure(email: string): (accepted: bool)
    ensures accepted <==> IsEmailShape(email)
  {
    ScanFindsMatch(email);
    match (IndexOf(email, '@'), LastIndexOf(email, '.'))
    case (Some(at), Some(dot)) => SplitsAt(email, at, dot)
    case _ => false
  }

  // ---------------------------------------------------------------------------
  // The split of a match is unique

  /** In any match, the `@` is the first `@` of the string and the separating
      `.` is its last `.`: the local part has no `@`, and the top-level part,
      unlike the domain, has no `.`. */
  lemma SeparatorsOfMatch(email: string, at: nat, dot: nat)
    requires SplitsAt(email, at, dot)
    ensures IndexOf(email, '@') == Some(at)
    ensures LastIndexOf(email, '.') == Some(dot)
  {
    var first := IndexOf(email, '@');
    assert forall k | 0 <= k < at :: email[k] != '@' by {
      forall k | 0 <= k < at ensures email[k] != '@' {
        assert email[..at][k] == email[k];
      }
    }
    assert first.Some?;
    assert first.value == at;
    var last := LastIndexOf(email, '.');
    assert forall k | dot < k < |email| :: email[k] != '.' by {
      forall k | dot < k < |email| ensures email[k] != '.' {
        assert email[dot + 1..][k - dot - 1] == email[k];
      }
    }
    assert last.Some?;
  }

  /** If `email` matches at all, it matches at its first `@` and last `.`. */
  lemma ScanFindsMatch(email: string)
    ensures IsEmailShape(email) ==>
              && IndexOf(email, '@').Some? && LastIndexOf(email, '.').Some?
              && SplitsAt(email, IndexOf(email, '@').value, LastIndexOf(email, '.').value)
  {
    if IsEmailShape(email) {
      var at: nat, dot: nat :| SplitsAt(email, at, dot);
      SeparatorsOfMatch(email, at, dot);
    }
  }

  /** A string matches the pattern in at most one way. */
  lemma SplitUnique(email: string, at: nat, dot: nat, at': nat, dot': nat)
    requires SplitsAt(email, at, dot) && SplitsAt(email, at', dot')
    ensures at == at' && dot == dot'
  {
    SeparatorsOfMatch(email, at, dot);
    SeparatorsOfMatch(email, at', dot');
  }

  // ---------------------------------------------------------------------------
  // The pattern in terms of its three parts

  /** Any local part, domain and top-level part joined as L@D.T match. */
  lemma PartsMatch(l: string, d: string, t: string)
    requires IsLocalPart(l) && IsDomainPart(d) && IsTopLevelPart(t)
    ensures IsEmailShape(l + "@" + d + "." + t)
  {
    var email := l + "@" + d + "." + t;
    var at, dot := |l|, |l| + 1 + |d|;
    assert email[..at] == l;
    assert email[at + 1..dot] == d;
    assert email[dot + 1..] == t;
    assert SplitsAt(email, at, dot);
  }

  /** Every match is L@D.T for some local part, domain and top-level part. */
  lemma MatchParts(email: string) returns (l: string, d: string, t: string)
    requires IsEmailShape(email)
    ensures email == l + "@" + d + "." + t
    ensures IsLocalPart(l) && IsDomainPart(d) && IsTopLevelPart(t)
  {
    var at: nat, dot: nat :| SplitsAt(email, at, dot);
    l, d, t := email[..at], email[at + 1..dot], email[dot + 1..];
    assert email == l + "@" + d + "." + t;
  }

  // ---------------------------------------------------------------------------
  // What an accepted address looks like

  /** Which class each character of a match belongs to. */
  lemma CharOfMatch(email: string, at: nat, dot: nat, i: nat)
    requires SplitsAt(email, at, dot) && i < |email|
    ensures i < at ==> IsLocalChar(email[i])
    ensures i == at ==> email[i] == '@'
    ensures at < i < dot ==> IsDomainChar(email[i])
    ensures i == dot ==> email[i] == '.'
    ensures dot < i ==> IsAsciiLetter(email[i])
  {
    if i < at {
      assert email[i] == email[..at][i];
    } else if at < i < dot {
      assert email[i] == email[at + 1..dot][i - at - 1];
    } else if dot < i {
      assert email[i] == email[dot + 1..][i - dot - 1];
    }
  }

  /** `c` occurs once in `s` when it occurs at `k` and nowhere else. */
  lemma OccursOnce(s: string, c: char, k: nat)
    requires k < |s| && s[k] == c
    requires forall i | 0 <= i < |s| && i != k :: s[i] != c
    ensures multiset(s)[c] == 1
  {
    var before, after := s[..k], s[k + 1..];
    assert s == before + [c] + after;
    assert c !in before by {
      forall i | 0 <= i < |before| ensures before[i] != c { assert before[i] == s[i]; }
    }
    assert c !in after by {
      forall i | 0 <= i < |after| ensures after[i] != c { assert after[i] == s[k + 1 + i]; }
    }
    assert multiset(s) == multiset(before) + multiset([c]) + multiset(after);
  }

  /** An accepted address holds exactly one `@`. */
  lemma AcceptedHasOneAt(email: string)
    requires ValidateEmailAddressStructure(email)
    ensures multiset(email)['@'] == 1
  {
    var at: nat, dot: nat :| SplitsAt(email, at, dot);
    forall i | 0 <= i < |email| && i != at ensures email[i] != '@' {
      CharOfMatch(email, at, dot, i);
    }
    OccursOnce(email, '@', at);
  }

  /** An accepted address holds no white space and no `#`: each of its
      characters is a letter, a digit or one of `._%+-@`. */
  lemma AcceptedCharsAllowed(email: string)
    requires ValidateEmailAddressStructure(email)
    ensures forall i | 0 <= i < |email| :: IsLocalChar(email[i]) || email[i] == '@'
    ensures forall i | 0 <= i < |email| :: !IsWhiteSpace(email[i]) && email[i] != '#'
  {
    var at: nat, dot: nat :| SplitsAt(email, at, dot);
    forall i | 0 <= i < |email| ensures IsLocalChar(email[i]) || email[i] == '@' {
      CharOfMatch(email, at, dot, i);
    }
  }

  /** An accepted address ends with a `.` and at least two letters. */
  lemma AcceptedEndsInLetters(email: string)
    requires ValidateEmailAddressStructure(email)
    ensures exists dot | 0 <= dot < |email| ::
              && email[dot] == '.' && dot + 3 <= |email|
              && forall k | dot < k < |email| :: IsAsciiLetter(email[k])
  {
    var at: nat, dot: nat :| SplitsAt(email, at, dot);
    forall k | dot < k < |email| ensures IsAsciiLetter(email[k]) {
      CharOfMatch(email, at, dot, k);
    }
  }

  // ---------------------------------------------------------------------------
  // What the validator rejects

  /** A string without `@` is rejected (the empty string, white space only,
      "userexample.com"). */
  lemma NoAtRejected(email: string)
    requires '@' !in email
    ensures !ValidateEmailAddressStructure(email)
  {
  }

  /** A string with two `@` is rejected ("user@@example.com"). */
  lemma TwoAtsRejected(email: string, i: nat, j: nat)
    requires i < j < |email| && email[i] == '@' && email[j] == '@'
    ensures !ValidateEmailAddressStructure(email)
  {
    if ValidateEmailAddressStructure(email) {
      AcceptedHasOneAt(email);
    }
  }

  /** A string holding white space or `#` is rejected ("user name@example.com",
      "user#name@example.com"). */
  lemma ForbiddenCharRejected(email: string, i: nat)
    requires i < |email| && (IsWhiteSpace(email[i]) || email[i] == '#')
    ensures !ValidateEmailAddressStructure(email)
  {
    if ValidateEmailAddressStructure(email) {
      AcceptedCharsAllowed(email);
    }
  }

  /** A string without `.` is rejected ("user@", "user@example"). */
  lemma NoDotRejected(email: string)
    requires '.' !in email
    ensures !ValidateEmailAddressStructure(email)
  {
  }

  /** A string starting with `@` has an empty local part and is rejected
      ("@example.com"). */
  lemma EmptyLocalPartRejected(email: string)
    requires |email| > 0 && email[0] == '@'
    ensures !ValidateEmailAddressStructure(email)
  {
  }

  /** An empty label before the final `.` ("user@.com") is rejected. */
  lemma EmptyDomainRejected(l: string, t: string)
    requires forall i | 0 <= i < |t| :: t[i] != '.'
    ensures !ValidateEmailAddressStructure(l + "@." + t)
  {
    var email := l + "@." + t;
    var dot := |l| + 1;
    assert email[|l|] == '@' && email[dot] == '.';
    forall k | dot < k < |email| ensures email[k] != '.' {
      assert email[k] == t[k - dot - 1];
    }
    assert LastIndexOf(email, '.') == Some(dot);
    forall at: nat ensures !SplitsAt(email, at, dot) {
      if at < |l| {
        assert email[at + 1..dot][|l| - at - 1] == '@';
      }
    }
  }

  // ---------------------------------------------------------------------------
  // The cases of the unit tests

  /** The unit tests' standard address is accepted. */
  lemma StandardExampleAccepted()
    ensures ValidateEmailAddressStructure("user@example.com")
  {
    assert SplitsAt("user@example.com", 4, 12);
  }

  /** The unit tests' address with dots in the local part is accepted. */
  lemma DottedLocalExampleAccepted()
    ensures ValidateEmailAddressStructure("first.last@example.com")
  {
    assert SplitsAt("first.last@example.com", 10, 18);
  }

  /** The unit tests' address with a plus sign is accepted. */
  lemma PlusExampleAccepted()
    ensures ValidateEmailAddressStructure("user+tag@example.com")
  {
    assert SplitsAt("user+tag@example.com", 8, 16);
  }

  /** The unit tests' address with digits is accepted. */
  lemma DigitsExampleAccepted()
    ensures ValidateEmailAddressStructure("user123@example456.com")
  {
    assert SplitsAt("user123@example456.com", 7, 18);
  }

  /** The unit tests' address with a subdomain is accepted. */
  lemma SubdomainExampleAccepted()
    ensures ValidateEmailAddressStructure("user@mail.example.com")
  {
    var email := "user@mail.example.com";
    assert email[..4] == "user" && email[5..17] == "mail.example" && email[18..] == "com";
    assert SplitsAt(email, 4, 17);
  }

  /** The unit tests' address with a hyphen in the domain is accepted. */
  lemma HyphenExampleAccepted()
    ensures ValidateEmailAddressStructure("user@my-domain.com")
  {
    assert SplitsAt("user@my-domain.com", 4, 14);
  }

  /** The unit tests' address without `@` is rejected. */
  lemma NoAtExampleRejected()
    ensures !ValidateEmailAddressStructure("userexample.com")
  {
    var email := "userexample.com";
    assert email == "user" + "example.com";
    assert '@' !in "user" && '@' !in "example.com";
    NoAtRejected(email);
  }

  /** The unit tests' address without domain is rejected. */
  lemma NoDomainExampleRejected()
    ensures !ValidateEmailAddressStructure("user@")
  {
    NoDotRejected("user@");
  }

  /** The unit tests' address without local part is rejected. */
  lemma NoLocalPartExampleRejected()
    ensures !ValidateEmailAddressStructure("@example.com")
  {
    EmptyLocalPartRejected("@example.com");
  }

  /** The unit tests' address without top-level part is rejected. */
  lemma NoTopLevelExampleRejected()
    ensures !ValidateEmailAddressStructure("user@example")
  {
    var email := "user@example";
    assert email == "user@" + "example";
    assert '.' !in "user@" && '.' !in "example";
    NoDotRejected(email);
  }

  /** The unit tests' address with a space is rejected. */
  lemma SpaceExampleRejected()
    ensures !ValidateEmailAddressStructure("user name@example.com")
  {
    ForbiddenCharRejected("user name@example.com", 4);
  }

  /** The unit tests' address with two `@` is rejected. */
  lemma DoubleAtExampleRejected()
    ensures !ValidateEmailAddressStructure("user@@example.com")
  {
    TwoAtsRejected("user@@example.com", 4, 5);
  }

  /** The unit tests' address with `#` is rejected. */
  lemma HashExampleRejected()
    ensures !ValidateEmailAddressStructure("user#name@example.com")
  {
    ForbiddenCharRejected("user#name@example.com", 4);
  }

  /** The empty string, white space only, and `undefined` and `null` (which
      the pattern sees as the strings "undefined" and "null") are rejected. */
  lemma EmptyAndMissingExamplesRejected()
    ensures !ValidateEmailAddressStructure("")
    ensures !ValidateEmailAddressStructure("   ")
    ensures !ValidateEmailAddressStructure("undefined")
    ensures !ValidateEmailAddressStructure("null")
  {
    NoAtRejected("");
    NoAtRejected("   ");
    NoAtRejected("undefined");
    NoAtRejected("null");
  }
}
