/**
 * Format checks on usernames, passwords and e-mail addresses. The regular
 * expressions of the source are stated as predicates over the characters.
 */
module Validation {
  import opened Wrappers

  /**
   * The regex engine's Unicode-aware classes: `\w` (word character) and `\d`
   * (decimal digit). Their full Unicode extent is left as a parameter.
   */
  datatype CharClasses = CharClasses(isWord: char -> bool, isDigit: char -> bool)

  predicate IsAsciiLower(c: char) { 'a' <= c <= 'z' }

  predicate IsAsciiUpper(c: char) { 'A' <= c <= 'Z' }

  predicate IsAsciiDigit(c: char) { '0' <= c <= '9' }

  predicate IsAsciiAlphanumeric(c: char) { IsAsciiLower(c) || IsAsciiUpper(c) || IsAsciiDigit(c) }

  /** On ASCII the classes are the familiar ones: letters, digits and '_' are word characters. */
  predicate AsciiCompatible(cls: CharClasses)
  {
    && (forall c: char {:trigger cls.isWord(c)} :: c < '\U{80}' ==>
          (cls.isWord(c) <==> IsAsciiAlphanumeric(c) || c == '_'))
    && (forall c: char {:trigger cls.isDigit(c)} :: c < '\U{80}' ==> (cls.isDigit(c) <==> IsAsciiDigit(c)))
  }

  // ---------------------------------------------------------------------------
  // Username: ^\w{6,64}$

  const UsernameError := "username must be a word of 6 to 64 characters long"

  function Username(username: string, cls: CharClasses): (r: Result<(), string>)
    ensures r.Ok? <==> 6 <= |username| <= 64 && forall i :: 0 <= i < |username| ==> cls.isWord(username[i])
    ensures r.Err? ==> r.error == UsernameError
  {
    if 6 <= |username| <= 64 && forall c | c in username :: cls.isWord(c) then Ok(()) else Err(UsernameError)
  }

  /** Examples: length bounds are inclusive and a hyphen is not a word character. */
  lemma UsernameExamples(cls: CharClasses)
    requires AsciiCompatible(cls)
    ensures Username("abc_12", cls).Ok?
    ensures Username("abc_1", cls).Err?
    ensures Username("abc-12", cls).Err?
  {
    assert !cls.isWord("abc-12"[3]);
    assert |"abc_1"| == 5;
  }

  // ---------------------------------------------------------------------------
  // Password: the regex set [a-z]+, [A-Z]+, \d+, \W+, .{8,}

  const PasswordRuleCount: nat := 5

  const PasswordErrors: seq<string> := [
    "password must contain at least one lower case letter",
    "password must contain at least one upper case letter",
    "password must contain at least one digit",
    "password must contain at least one special character",
    "password must be at least eight characters long"
  ]

  predicate HasLower(p: string) { exists i | 0 <= i < |p| :: IsAsciiLower(p[i]) }

  predicate HasUpper(p: string) { exists i | 0 <= i < |p| :: IsAsciiUpper(p[i]) }

  predicate HasDigit(p: string, cls: CharClasses) { exists i | 0 <= i < |p| :: cls.isDigit(p[i]) }

  predicate HasNonWord(p: string, cls: CharClasses) { exists i | 0 <= i < |p| :: !cls.isWord(p[i]) }

  /** `.{8,}` unanchored: somewhere eight consecutive characters none of which is a newline. */
  predicate HasEightWithoutNewline(p: string)
  {
    exists i | 0 <= i <= |p| - 8 :: NoNewlineRun(p, i)
  }

  /** The eight characters from `i` on contain no newline. */
  predicate NoNewlineRun(p: string, i: int)
  {
    0 <= i <= |p| - 8 && forall j | i <= j < i + 8 :: p[j] != '\n'
  }

  /** Which of the five patterns match, in the fixed order of their messages. */
  function Rules(p: string, cls: CharClasses): (r: seq<bool>)
    ensures |r| == PasswordRuleCount
  {
    [HasLower(p), HasUpper(p), HasDigit(p, cls), HasNonWord(p, cls), HasEightWithoutNewline(p)]
  }

  /** The indices of the matching patterns, ascending, as the regex set reports them. */
  function Matches(rules: seq<bool>): (m: seq<nat>)
    ensures |m| <= |rules|
    ensures forall k: nat :: k in m <==> k < |rules| && rules[k]
    ensures |m| == |rules| <==> forall k :: 0 <= k < |rules| ==> rules[k]
  {
    if rules == [] then []
    else Matches(rules[..|rules| - 1]) + (if rules[|rules| - 1] then [|rules| - 1] else [])
  }

  /** The index of the first failing rule, or the number of rules if none fails. */
  function FirstFailing(rules: seq<bool>): (k: nat)
    ensures k <= |rules|
    ensures forall j :: 0 <= j < k ==> rules[j]
    ensures k < |rules| ==> !rules[k]
  {
    if rules == [] || !rules[0] then 0 else 1 + FirstFailing(rules[1..])
  }

  /** The password verdict: Ok when all five rules hold, else the message of the first failing one. */
  function PasswordCheck(p: string, cls: CharClasses): (r: Result<(), string>)
    ensures r.Ok? <==> forall k :: 0 <= k < PasswordRuleCount ==> Rules(p, cls)[k]
    ensures r.Err? ==> exists k :: 0 <= k < PasswordRuleCount && r.error == PasswordErrors[k]
                                   && !Rules(p, cls)[k] && forall j :: 0 <= j < k ==> Rules(p, cls)[j]
  {
    var k := FirstFailing(Rules(p, cls));
    if k < PasswordRuleCount then Err(PasswordErrors[k]) else Ok(())
  }

  /** The check as the source runs it: count the matches, then look for the first missing index. */
  method Password(p: string, cls: CharClasses) returns (r: Result<(), string>)
    ensures r == PasswordCheck(p, cls)
  {
    var rules := Rules(p, cls);
    var matches := Matches(rules);
    if |matches| != PasswordRuleCount {
      var index := 0;
      while index < PasswordRuleCount
        invariant 0 <= index <= PasswordRuleCount
        invariant forall j :: 0 <= j < index ==> rules[j]
      {
        if index !in matches {
          return Err(PasswordErrors[index]);
        }
        index := index + 1;
      }
    }
    return Ok(());
  }

  /** The messages are pairwise distinct, so the message names the rule that failed. */
  lemma PasswordErrorsDistinct()
    ensures forall i, j :: 0 <= i < j < PasswordRuleCount ==> PasswordErrors[i] != PasswordErrors[j]
  {
  }

  /** A password with every ingredient passes; one missing only its digit reports the digit rule. */
  lemma PasswordExamples(cls: CharClasses)
    requires AsciiCompatible(cls)
    ensures PasswordCheck("Abcdef1!", cls).Ok?
    ensures PasswordCheck("Abcdefg!", cls) == Err(PasswordErrors[2])
  {
    var good := "Abcdef1!";
    assert IsAsciiLower(good[1]) && IsAsciiUpper(good[0]) && cls.isDigit(good[6]) && !cls.isWord(good[7]);
    assert NoNewlineRun(good, 0);
    var bad := "Abcdefg!";
    assert IsAsciiLower(bad[1]) && IsAsciiUpper(bad[0]);
    assert forall i | 0 <= i < |bad| :: !cls.isDigit(bad[i]);
    assert Rules(bad, cls)[2] == false;
  }

  // ---------------------------------------------------------------------------
  // E-mail: ^[<local>]+@[a-zA-Z0-9-]+(?:\.[a-zA-Z0-9-]+)*$ and at most 256 bytes

  const EmailError := "invalid email format"

  /** The local-part class of the validation module, with its right single quotation mark. */
  predicate IsLocalChar(c: char)
  {
    IsAsciiAlphanumeric(c) || c in ".!#$%&\U{2019}*+/=?^_`{|}~-"
  }

  /**
   * The local-part class of the older constants copy used by registration:
   * the quotation mark there is stored as the three characters of its
   * UTF-8 bytes read as Windows-1252 (U+00E2, U+20AC, U+2122).
   */
  predicate IsLocalCharOfCopy(c: char)
  {
    IsAsciiAlphanumeric(c) || c in ".!#$%&\U{E2}\U{20AC}\U{2122}*+/=?^_`{|}~-"
  }

  predicate IsLabelChar(c: char) { IsAsciiAlphanumeric(c) || c == '-' }

  /** `[a-zA-Z0-9-]+(?:\.[a-zA-Z0-9-]+)*`: non-empty labels separated by single dots; no dot is required. */
  predicate IsDomain(d: string)
  {
    && |d| > 0
    && (forall i | 0 <= i < |d| :: IsLabelChar(d[i]) || d[i] == '.')
    && d[0] != '.'
    && d[|d| - 1] != '.'
    && (forall i | 0 <= i < |d| - 1 :: !(d[i] == '.' && d[i + 1] == '.'))
  }

  /** The whole-string match: a non-empty local part from `isLocal`, an '@', a domain. */
  predicate MatchesEmail(s: string, isLocal: char -> bool)
  {
    exists i | 0 < i < |s| :: && s[i] == '@'
                              && (forall j | 0 <= j < i :: isLocal(s[j]))
                              && IsDomain(s[i + 1..])
  }

  /** Bytes of one character in UTF-8. */
  function Utf8Width(c: char): (n: nat)
    ensures 1 <= n <= 4
  {
    if c < '\U{80}' then 1 else if c < '\U{800}' then 2 else if c < '\U{10000}' then 3 else 4
  }

  /** Bytes of a string in UTF-8: what the length test of the source counts. */
  function Utf8Length(s: string): (n: nat)
    ensures |s| <= n <= 4 * |s|
  {
    if s == [] then 0 else Utf8Width(s[0]) + Utf8Length(s[1..])
  }

  /** The e-mail verdict for a given local-part class. */
  function EmailWith(email: string, isLocal: char -> bool): (r: Result<(), string>)
    ensures r.Ok? <==> MatchesEmail(email, isLocal) && Utf8Length(email) <= 256
    ensures r.Err? ==> r.error == EmailError
  {
    if !MatchesEmail(email, isLocal) || Utf8Length(email) > 256 then Err(EmailError) else Ok(())
  }

  /** `validation::email`. */
  function Email(email: string): (r: Result<(), string>)
    ensures Utf8Length(email) > 256 ==> r == Err(EmailError)
    ensures r.Ok? <==> MatchesEmail(email, IsLocalChar) && Utf8Length(email) <= 256
  {
    EmailWith(email, IsLocalChar)
  }

  /** No dot is needed after the '@', and a dotted domain is accepted too. */
  lemma EmailAcceptsExamples()
    ensures Email("a@b").Ok?
    ensures Email("a@b.c").Ok?
  {
    assert "a@b"[1] == '@' && IsDomain("a@b"[2..]);
    assert "a@b.c"[1] == '@' && "a@b.c"[2..] == "b.c" && IsDomain("b.c");
  }

  /** A domain ending in a dot is refused. */
  lemma EmailRefusesTrailingDot()
    ensures Email("a@b.").Err?
  {
    var trailing := "a@b.";
    forall i | 0 < i < |trailing| && trailing[i] == '@' ensures !IsDomain(trailing[i + 1..]) {
      assert i == 1;
      assert trailing[2..] == "b.";
    }
  }

  /** A domain with two dots in a row is refused. */
  lemma EmailRefusesDoubledDot()
    ensures Email("a@b..c").Err?
  {
    var doubled := "a@b..c";
    forall i | 0 < i < |doubled| && doubled[i] == '@' ensures !IsDomain(doubled[i + 1..]) {
      assert i == 1;
      assert doubled[2..][1] == '.' && doubled[2..][2] == '.';
    }
  }

  /** An empty local part is refused. */
  lemma EmailRefusesEmptyLocal()
    ensures Email("@b").Err?
  {
  }

  /** A string of 129 two-byte characters is refused although it has fewer than 257 characters. */
  lemma EmailLimitCountsBytes(s: string)
    requires |s| == 129 && forall i | 0 <= i < |s| :: s[i] == '\U{E9}'
    ensures Email(s).Err?
  {
    assert Utf8Length(s) == 258 by { Utf8LengthOfTwoByteChars(s); }
  }

  lemma {:induction false} Utf8LengthOfTwoByteChars(s: string)
    requires forall i | 0 <= i < |s| :: s[i] == '\U{E9}'
    ensures Utf8Length(s) == 2 * |s|
  {
    if s != [] {
      Utf8LengthOfTwoByteChars(s[1..]);
    }
  }

  /** With a single '@' in the address, the match is decided at that '@'. */
  lemma MatchesEmailAtOnlyAt(s: string, isLocal: char -> bool, at: nat)
    requires 0 < at < |s| && s[at] == '@'
    requires forall j | 0 <= j < |s| && j != at :: s[j] != '@'
    ensures MatchesEmail(s, isLocal) <==> (forall j | 0 <= j < at :: isLocal(s[j])) && IsDomain(s[at + 1..])
  {
  }

  /** The right single quotation mark is a local-part character of the validation module's class. */
  lemma QuoteInValidationClass()
    ensures Email("o\U{2019}n@x").Ok?
  {
    var quote := "o\U{2019}n@x";
    assert quote[4..] == "x";
    assert Utf8Length(quote) == 7;
    MatchesEmailAtOnlyAt(quote, IsLocalChar, 3);
  }

  /** ... but not of the copy's class, so registration refuses what an e-mail change accepts. */
  lemma QuoteNotInCopiedClass()
    ensures EmailWith("o\U{2019}n@x", IsLocalCharOfCopy).Err?
  {
    var quote := "o\U{2019}n@x";
    MatchesEmailAtOnlyAt(quote, IsLocalCharOfCopy, 3);
    assert !IsLocalCharOfCopy(quote[1]);
  }

  /** The euro sign, one of the mis-decoded characters, is a local-part character of the copy's class ... */
  lemma EuroInCopiedClass()
    ensures EmailWith("o\U{20AC}n@x", IsLocalCharOfCopy).Ok?
  {
    var euro := "o\U{20AC}n@x";
    assert euro[4..] == "x";
    assert Utf8Length(euro) == 7;
    MatchesEmailAtOnlyAt(euro, IsLocalCharOfCopy, 3);
  }

  /** ... and not of the validation module's class. */
  lemma EuroNotInValidationClass()
    ensures Email("o\U{20AC}n@x").Err?
  {
    var euro := "o\U{20AC}n@x";
    MatchesEmailAtOnlyAt(euro, IsLocalChar, 3);
    assert !IsLocalChar(euro[1]);
  }
}
