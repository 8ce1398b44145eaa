/**
  The static checks of `utils.ValidationUtils`: the regular-expression and length tests on
  IDs, user names, passwords, names and e-mail addresses, the two input sanitisers and the
  ordered registration check. A Java `null` argument has no counterpart here.
*/
module ValidationUtils {
  import opened Wrappers
  import opened Strings
  import opened Ids

  // ---------------------------------------------------------------- IDs

  /** `^E\d{3,}$` */
  predicate IsValidEquipmentId(id: string)
  {
    |id| >= 4 && id[0] == 'E' && AllDigits(id[1..])
  }

  /** `^R\d{3,}$` */
  predicate IsValidRentalId(id: string)
  {
    |id| >= 4 && id[0] == 'R' && AllDigits(id[1..])
  }

  /** `^[AC]\d{3,}$`, matched against the trimmed argument. */
  predicate IsValidUserId(userId: string)
  {
    var t := Trim(userId);
    |t| >= 4 && (t[0] == 'A' || t[0] == 'C') && AllDigits(t[1..])
  }

  /** Every ID the allocators produce has the documented shape. */
  lemma GeneratedIdsAreValid(n: nat)
    ensures IsValidEquipmentId(FormatId('E', n))
    ensures IsValidRentalId(FormatId('R', n))
    ensures IsValidUserId(FormatId('A', n)) && IsValidUserId(FormatId('C', n))
  {
    var a, c := FormatId('A', n), FormatId('C', n);
    assert forall i :: 0 <= i < |a| ==> !IsTrimmable(a[i]);
    assert forall i :: 0 <= i < |c| ==> !IsTrimmable(c[i]);
  }

  // ---------------------------------------------------------------- scalar checks

  // Lengths are `String.length()`, counted in UTF-16 code units.

  predicate IsValidCustomerName(name: string) { Utf16Length(Trim(name)) >= 2 }

  predicate IsValidRentDays(days: int) { 0 < days <= 365 }

  predicate IsValidRentRate(rate: real) { 0.0 <= rate <= 10000.0 }

  /** Only the untrimmed length is checked. */
  predicate IsValidPassword(password: string) { 6 <= Utf16Length(password) <= 50 }

  predicate IsValidFullName(fullName: string) { 2 <= Utf16Length(Trim(fullName)) <= 100 }

  /**
    The length limits count UTF-16 units: 26 emoji are 26 characters but 52 units, too long
    for a password, while 25 of them fit; one emoji alone is a long enough name.
  */
  lemma LengthLimitsCountUtf16Units()
    ensures !IsValidPassword(seq(26, _ => '\U{1F600}'))
    ensures IsValidPassword(seq(25, _ => '\U{1F600}'))
    ensures IsValidCustomerName("\U{1F600}") && !IsValidFullName(seq(51, _ => '\U{1F600}'))
  {
    var e := '\U{1F600}';
    TrimKeepsKeptEnds([e]);
    TrimKeepsKeptEnds(seq(51, _ => e));
  }

  /** A valid equipment or rental ID is one whose suffix the allocators' scan reads. */
  lemma ValidIdsAreScanned(id: string)
    ensures IsValidEquipmentId(id) ==> SuffixOf(id, 'E').Some?
    ensures IsValidRentalId(id) ==> SuffixOf(id, 'R').Some?
    ensures IsValidEquipmentId(id) <==> |id| >= 4 && SuffixOf(id, 'E').Some?
  {
  }

  // ---------------------------------------------------------------- user names

  /** `[a-zA-Z0-9._-]` */
  predicate IsUsernameChar(c: char)
  {
    IsLowerAscii(c) || IsUpperAscii(c) || IsDigit(c) || c == '.' || c == '_' || c == '-'
  }

  /** `^[a-zA-Z0-9._-]{3,20}$`, matched against the trimmed argument. */
  predicate IsValidUsername(username: string)
  {
    var t := Trim(username);
    3 <= |t| <= 20 && forall i :: 0 <= i < |t| ==> IsUsernameChar(t[i])
  }

  // ---------------------------------------------------------------- e-mail

  /** `[A-Za-z0-9+_.-]` */
  predicate IsEmailLocalChar(c: char)
  {
    IsLowerAscii(c) || IsUpperAscii(c) || IsDigit(c) || c == '+' || c == '_' || c == '.' || c == '-'
  }

  /** The characters Java's `.` does not match. */
  predicate IsLineTerminator(c: char)
  {
    c == '\n' || c == '\r' || c == '\U{85}' || c == '\U{2028}' || c == '\U{2029}'
  }

  /** The index of the first occurrence of `c` in `s`, or |s|. */
  function IndexOf(s: string, c: char): (k: nat)
    ensures k <= |s|
    ensures forall i :: 0 <= i < k ==> s[i] != c
    ensures k < |s| ==> s[k] == c
  {
    if s == [] then 0
    else if s[0] == c then 0
    else
      var k := 1 + IndexOf(s[1..], c);
      assert forall i :: 1 <= i < k ==> s[i] == s[1..][i - 1];
      k
  }

  /**
    `^[A-Za-z0-9+_.-]+@(.+)$` on the trimmed argument. The local part has no '@', so the
    match splits at the first '@'.
  */
  predicate IsValidEmail(email: string)
  {
    var t := Trim(email);
    var k := IndexOf(t, '@');
    && 0 < k < |t| - 1
    && (forall i :: 0 <= i < k ==> IsEmailLocalChar(t[i]))
    && (forall i :: k < i < |t| ==> !IsLineTerminator(t[i]))
  }

  /**
    The regular expression, read as a grammar, describes exactly the valid addresses: a
    non-empty local part, '@', and a non-empty rest without line terminators, with nothing
    for `trim` to remove at the end. `EmailSplits` is the converse.
  */
  lemma EmailShape(local: string, rest: string)
    requires |local| > 0 && forall i :: 0 <= i < |local| ==> IsEmailLocalChar(local[i])
    requires |rest| > 0 && forall i :: 0 <= i < |rest| ==> !IsLineTerminator(rest[i])
    requires !IsTrimmable(rest[|rest| - 1])
    ensures IsValidEmail(local + "@" + rest)
  {
    var t := local + "@" + rest;
    assert t[0] == local[0] && t[|t| - 1] == rest[|rest| - 1];
    TrimKeepsKeptEnds(t);
    assert IndexOf(t, '@') == |local| by {
      assert t[|local|] == '@';
      assert forall i :: 0 <= i < |local| ==> t[i] == local[i] && t[i] != '@';
    }
    assert forall i :: |local| < i < |t| ==> t[i] == rest[i - |local| - 1];
  }

  lemma EmailSplits(email: string)
    requires IsValidEmail(email)
    ensures var t := Trim(email); var k := IndexOf(t, '@');
      && t == t[..k] + "@" + t[k + 1..]
      && |t[..k]| > 0 && (forall i :: 0 <= i < k ==> IsEmailLocalChar(t[i]) && t[i] != '@')
      && |t[k + 1..]| > 0 && (forall i :: k < i < |t| ==> !IsLineTerminator(t[i]))
      && !IsTrimmable(t[|t| - 1])
  {
    var t := Trim(email);
    var k := IndexOf(t, '@');
    assert t == t[..k] + [t[k]] + t[k + 1..];
  }

  // ---------------------------------------------------------------- sanitisers

  /** Java's `\s`: space, tab, line feed, vertical tab, form feed, carriage return. */
  predicate IsRegexSpace(c: char)
  {
    c == ' ' || c == '\t' || c == '\n' || c == '\U{B}' || c == '\U{C}' || c == '\r'
  }

  lemma RegexSpaceIsTrimmable(c: char)
    ensures IsRegexSpace(c) ==> IsTrimmable(c)
  {
  }

  predicate IsCsvBreaker(c: char) { c == ',' || c == '\r' || c == '\n' }

  /** `replaceAll("[,\\r\\n]", " ")` */
  function BlankCsvBreakers(s: string): (r: string)
    ensures |r| == |s|
    ensures forall i :: 0 <= i < |s| ==> r[i] == if IsCsvBreaker(s[i]) then ' ' else s[i]
  {
    seq(|s|, i requires 0 <= i < |s| => if IsCsvBreaker(s[i]) then ' ' else s[i])
  }

  /** Drops the leading run of `\s` characters. */
  function SkipSpaces(s: string): (r: string)
    ensures |r| <= |s| && r == s[|s| - |r|..]
    ensures r == [] || !IsRegexSpace(r[0])
    ensures |s| > 0 && IsRegexSpace(s[0]) ==> |r| < |s|
  {
    if |s| > 0 && IsRegexSpace(s[0]) then SkipSpaces(s[1..]) else s
  }

  predicate NoDoubleSpace(s: string)
  {
    forall i :: 0 <= i < |s| - 1 ==> !(IsRegexSpace(s[i]) && IsRegexSpace(s[i + 1]))
  }

  /**
    `replaceAll("\\s+", " ")`: every maximal run of `\s` becomes one space. The result keeps
    no two adjacent `\s` characters, starts with `\s` exactly when `s` does, and every
    character in it is a space or a character of `s`.
  */
  function CollapseSpaces(s: string): (r: string)
    ensures |r| <= |s| && (r == [] <==> s == [])
    ensures r != [] ==> (IsRegexSpace(r[0]) <==> IsRegexSpace(s[0]))
    ensures NoDoubleSpace(r)
    ensures forall i :: 0 <= i < |r| ==> r[i] == ' ' || r[i] in s
    decreases |s|
  {
    if s == [] then []
    else if IsRegexSpace(s[0]) then
      var rest := SkipSpaces(s);
      var tail := CollapseSpaces(rest);
      assert forall c :: c in rest ==> c in s;
      var r := [' '] + tail;
      assert forall i :: 0 < i < |r| ==> r[i] == tail[i - 1];
      r
    else
      var tail := CollapseSpaces(s[1..]);
      assert forall c :: c in s[1..] ==> c in s;
      var r := [s[0]] + tail;
      assert forall i :: 0 < i < |r| ==> r[i] == tail[i - 1];
      r
  }

  /** Every infix of a string without adjacent `\s` is without them too. */
  lemma NoDoubleSpaceInfix(s: string, lo: nat, hi: nat)
    requires lo <= hi <= |s| && NoDoubleSpace(s)
    ensures NoDoubleSpace(s[lo..hi])
  {
    var t := s[lo..hi];
    assert forall i :: 0 <= i < |t| ==> t[i] == s[lo + i];
  }

  /** The characters of `s` other than `\s`, in order. */
  function NonSpaces(s: string): string
  {
    if s == [] then [] else (if IsRegexSpace(s[0]) then [] else [s[0]]) + NonSpaces(s[1..])
  }

  lemma {:induction false} SkipSpacesKeepsNonSpaces(s: string)
    ensures NonSpaces(SkipSpaces(s)) == NonSpaces(s)
  {
    if |s| > 0 && IsRegexSpace(s[0]) {
      SkipSpacesKeepsNonSpaces(s[1..]);
    }
  }

  /** Collapsing only rewrites `\s` runs: every other character survives, in order. */
  lemma {:induction false} CollapseSpacesKeepsNonSpaces(s: string)
    ensures NonSpaces(CollapseSpaces(s)) == NonSpaces(s)
    decreases |s|
  {
    if s != [] {
      if IsRegexSpace(s[0]) {
        var tail := CollapseSpaces(SkipSpaces(s));
        assert ([' '] + tail)[1..] == tail;
        CollapseSpacesKeepsNonSpaces(SkipSpaces(s));
        SkipSpacesKeepsNonSpaces(s);
      } else {
        var tail := CollapseSpaces(s[1..]);
        assert ([s[0]] + tail)[1..] == tail;
        CollapseSpacesKeepsNonSpaces(s[1..]);
      }
    }
  }

  /** Every `\s` character left after collapsing is a plain space. */
  lemma {:induction false} CollapsedSpacesArePlain(s: string)
    ensures forall i :: 0 <= i < |CollapseSpaces(s)| && IsRegexSpace(CollapseSpaces(s)[i]) ==> CollapseSpaces(s)[i] == ' '
    decreases |s|
  {
    if s != [] {
      if IsRegexSpace(s[0]) {
        CollapsedSpacesArePlain(SkipSpaces(s));
      } else {
        CollapsedSpacesArePlain(s[1..]);
      }
    }
  }

  /** A string without two adjacent `\s`, whose every `\s` is a plain space, collapses to itself. */
  lemma {:induction false} CollapseSpacesKeepsPlainSpaces(s: string)
    requires NoDoubleSpace(s) && forall i :: 0 <= i < |s| && IsRegexSpace(s[i]) ==> s[i] == ' '
    ensures CollapseSpaces(s) == s
    decreases |s|
  {
    if s != [] {
      NoDoubleSpaceInfix(s, 1, |s|);
      assert s[1..|s|] == s[1..];
      CollapseSpacesKeepsPlainSpaces(s[1..]);
      if IsRegexSpace(s[0]) {
        assert SkipSpaces(s[1..]) == s[1..];
        assert [' '] + s[1..] == s;
      } else {
        assert [s[0]] + s[1..] == s;
      }
    }
  }

  /**
    The form `sanitizeInput` produces: trimmed, with no comma or line break, with every `\s`
    a plain space and never two of them together.
  */
  predicate IsSanitized(s: string)
  {
    && (s == [] || (!IsTrimmable(s[0]) && !IsTrimmable(s[|s| - 1])))
    && NoDoubleSpace(s)
    && forall i :: 0 <= i < |s| ==> !IsCsvBreaker(s[i]) && (IsRegexSpace(s[i]) ==> s[i] == ' ')
  }

  /** `sanitizeInput`: trim, blank every comma and line break, collapse `\s` runs, trim again. */
  function SanitizeInput(input: string): (r: string)
    ensures forall i :: 0 <= i < |r| ==> !IsCsvBreaker(r[i])
    ensures r == [] || (!IsTrimmable(r[0]) && !IsTrimmable(r[|r| - 1]))
    ensures NoDoubleSpace(r)
  {
    var blanked := BlankCsvBreakers(Trim(input));
    var collapsed := CollapseSpaces(blanked);
    CollapsedHasNoBreakers(blanked);
    TrimKeepsSanitized(collapsed);
    Trim(collapsed)
  }

  lemma CollapsedHasNoBreakers(blanked: string)
    requires forall i :: 0 <= i < |blanked| ==> !IsCsvBreaker(blanked[i])
    ensures forall i :: 0 <= i < |CollapseSpaces(blanked)| ==> !IsCsvBreaker(CollapseSpaces(blanked)[i])
  {
    var collapsed := CollapseSpaces(blanked);
    forall i | 0 <= i < |collapsed| ensures !IsCsvBreaker(collapsed[i]) {
      if collapsed[i] != ' ' {
        var j :| 0 <= j < |blanked| && blanked[j] == collapsed[i];
      }
    }
  }

  lemma TrimKeepsSanitized(s: string)
    requires NoDoubleSpace(s) && forall i :: 0 <= i < |s| ==> !IsCsvBreaker(s[i])
    ensures NoDoubleSpace(Trim(s)) && forall i :: 0 <= i < |Trim(s)| ==> !IsCsvBreaker(Trim(s)[i])
  {
    var lo, hi := TrimLo(s), TrimHi(s);
    NoDoubleSpaceInfix(s, lo, hi);
    assert forall i :: 0 <= i < hi - lo ==> Trim(s)[i] == s[lo + i];
  }

  /** Sanitised text is left alone, and only sanitised text is. */
  lemma SanitizeInputFixpoint(s: string)
    ensures SanitizeInput(s) == s <==> IsSanitized(s)
  {
    SanitizeInputIsSanitized(s);
    if IsSanitized(s) {
      if s != [] {
        TrimKeepsKeptEnds(s);
      }
      assert BlankCsvBreakers(s) == s;
      CollapseSpacesKeepsPlainSpaces(s);
    }
  }

  lemma SanitizeInputIsSanitized(input: string)
    ensures IsSanitized(SanitizeInput(input))
  {
    var collapsed := CollapseSpaces(BlankCsvBreakers(Trim(input)));
    CollapsedSpacesArePlain(BlankCsvBreakers(Trim(input)));
    TrimKeepsPlainSpaces(collapsed);
    assert SanitizeInput(input) == Trim(collapsed);
  }

  lemma TrimKeepsPlainSpaces(s: string)
    requires forall i :: 0 <= i < |s| && IsRegexSpace(s[i]) ==> s[i] == ' '
    ensures forall i :: 0 <= i < |Trim(s)| && IsRegexSpace(Trim(s)[i]) ==> Trim(s)[i] == ' '
  {
    var lo, hi := TrimLo(s), TrimHi(s);
    assert forall i :: 0 <= i < hi - lo ==> Trim(s)[i] == s[lo + i];
  }

  /** Sanitising twice is sanitising once. */
  lemma SanitizeInputIdempotent(input: string)
    ensures SanitizeInput(SanitizeInput(input)) == SanitizeInput(input)
  {
    SanitizeInputIsSanitized(input);
    SanitizeInputFixpoint(SanitizeInput(input));
  }

  /** `sanitizeUsername`: trim, lower-case, then drop every character outside `[a-zA-Z0-9._-]`. */
  function SanitizeUsername(username: string): (r: string)
    ensures forall i :: 0 <= i < |r| ==> IsUsernameChar(r[i]) && !IsUpperAscii(r[i])
  {
    KeepUsernameChars(ToLower(Trim(username)))
  }

  /** `replaceAll("[^a-zA-Z0-9._-]", "")` */
  function KeepUsernameChars(s: string): (r: string)
    ensures |r| <= |s|
    ensures forall i :: 0 <= i < |r| ==> IsUsernameChar(r[i]) && r[i] in s
    ensures (forall i :: 0 <= i < |s| ==> IsUsernameChar(s[i])) ==> r == s
  {
    if s == [] then []
    else
      var tail := KeepUsernameChars(s[1..]);
      assert forall c :: c in s[1..] ==> c in s;
      if IsUsernameChar(s[0]) then [s[0]] + tail else tail
  }

  /** Sanitising a sanitised user name changes nothing. */
  lemma SanitizeUsernameIdempotent(username: string)
    ensures SanitizeUsername(SanitizeUsername(username)) == SanitizeUsername(username)
  {
    var r := SanitizeUsername(username);
    assert forall i :: 0 <= i < |r| ==> !IsTrimmable(r[i]);
    assert Trim(r) == r;
    assert ToLower(r) == r;
  }

  /** A sanitised user name of admissible length passes `isValidUsername`. */
  lemma SanitizedUsernameIsValid(username: string)
    requires 3 <= |SanitizeUsername(username)| <= 20
    ensures IsValidUsername(SanitizeUsername(username))
  {
    var r := SanitizeUsername(username);
    assert forall i :: 0 <= i < |r| ==> !IsTrimmable(r[i]);
  }

  // ---------------------------------------------------------------- registration

  const UsernameMessage := "Username must be 3-20 characters and contain only letters, numbers, dots, underscores, or hyphens."
  const PasswordMessage := "Password must be between 6-50 characters."
  const FullNameMessage := "Full name must be 2-100 characters."
  const EmailMessage := "Invalid email format"

  /**
    `validateUserRegistration`: None (Java's null) when every check passes, otherwise the
    message of the first failing check, in the order user name, password, full name, e-mail.
  */
  function ValidateUserRegistration(username: string, password: string, fullName: string, email: string): (r: Option<string>)
    ensures r == None <==> IsValidUsername(username) && IsValidPassword(password) && IsValidFullName(fullName) && IsValidEmail(email)
    ensures !IsValidUsername(username) ==> r == Some(UsernameMessage)
    ensures IsValidUsername(username) && !IsValidPassword(password) ==> r == Some(PasswordMessage)
    ensures IsValidUsername(username) && IsValidPassword(password) && !IsValidFullName(fullName) ==> r == Some(FullNameMessage)
    ensures IsValidUsername(username) && IsValidPassword(password) && IsValidFullName(fullName) && !IsValidEmail(email) ==> r == Some(EmailMessage)
  {
    if !IsValidUsername(username) then Some(UsernameMessage)
    else if !IsValidPassword(password) then Some(PasswordMessage)
    else if !IsValidFullName(fullName) then Some(FullNameMessage)
    else if !IsValidEmail(email) then Some(EmailMessage)
    else None
  }
}
