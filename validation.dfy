/** ValidationService: side-effect-free checks of lengths, letters, e-mail
    addresses, phone numbers and prices. Each regular expression is written
    twice: as a left-to-right scan (the `IsValid...` function, which is what
    the service computes) and as the language the pattern denotes (a ghost
    predicate), and a lemma proves the two agree on every string. */
module Validation {
  import opened Entities
  import opened Strings
  import Decimal

  // ---- isValidLength ----

  /** isValidLength: the length lies in [min, max]. */
  function IsValidLength(name: string, min: int, max: int): (r: bool)
    ensures r <==> min <= |name| <= max
  {
    |name| >= min && |name| <= max
  }

  /** With an empty range no string passes. */
  lemma EmptyRangeRejectsAll(name: string, min: int, max: int)
    requires min > max
    ensures !IsValidLength(name, min, max)
  {
  }

  // ---- isValidSymbol: [a-zA-Zа-яА-ЯёЁ]+ ----

  /** One character of the class: Latin a-z and A-Z, Cyrillic а-я (U+0430 to
      U+044F) and А-Я (U+0410 to U+042F), ё (U+0451) and Ё (U+0401). */
  predicate IsLetter(c: char) {
    || ('a' <= c <= 'z')
    || ('A' <= c <= 'Z')
    || ('\U{0430}' <= c <= '\U{044F}')
    || ('\U{0410}' <= c <= '\U{042F}')
    || c == '\U{0451}'
    || c == '\U{0401}'
  }

  /** isValidSymbol: the pattern's `+` consumes one letter and then either
      stops at the end of the input or repeats. */
  function IsValidSymbol(name: string): bool
  {
    |name| > 0 && IsLetter(name[0]) && (|name| == 1 || IsValidSymbol(name[1..]))
  }

  /** The language of [a-zA-Zа-яА-ЯёЁ]+: non-empty, letters only. */
  ghost predicate LettersOnly(name: string) {
    |name| > 0 && forall i | 0 <= i < |name| :: IsLetter(name[i])
  }

  lemma {:induction false} IsValidSymbolMeansLettersOnly(name: string)
    ensures IsValidSymbol(name) <==> LettersOnly(name)
  {
    if |name| > 1 {
      IsValidSymbolMeansLettersOnly(name[1..]);
      if LettersOnly(name) {
        assert forall i | 0 <= i < |name| - 1 :: name[1..][i] == name[i + 1];
      }
      if IsValidSymbol(name) {
        forall i | 0 <= i < |name| ensures IsLetter(name[i]) {
          if i > 0 { assert name[i] == name[1..][i - 1]; }
        }
      }
    }
  }

  /** A digit, a space or any punctuation anywhere makes the check fail, and so
      does the empty string. */
  lemma NonLetterRejected(name: string, i: int)
    requires 0 <= i < |name| && !IsLetter(name[i])
    ensures !IsValidSymbol(name)
  {
    IsValidSymbolMeansLettersOnly(name);
  }

  // ---- isValidUsername: ^[a-zA-Z0-9._%+-]+@[a-zA-Z0-9.-]+\.[a-zA-Z]{2,}$ ----

  predicate IsAsciiLetter(c: char) {
    ('a' <= c <= 'z') || ('A' <= c <= 'Z')
  }

  predicate IsAsciiAlnum(c: char) {
    IsAsciiLetter(c) || Decimal.IsDigit(c)
  }

  /** The class [a-zA-Z0-9._%+-] of the local part. */
  predicate IsLocalChar(c: char) {
    IsAsciiAlnum(c) || c == '.' || c == '_' || c == '%' || c == '+' || c == '-'
  }

  /** The class [a-zA-Z0-9.-] of the domain. */
  predicate IsDomainChar(c: char) {
    IsAsciiAlnum(c) || c == '.' || c == '-'
  }

  predicate AllLocal(s: string) { forall i | 0 <= i < |s| :: IsLocalChar(s[i]) }
  predicate AllDomain(s: string) { forall i | 0 <= i < |s| :: IsDomainChar(s[i]) }
  predicate AllAsciiLetters(s: string) { forall i | 0 <= i < |s| :: IsAsciiLetter(s[i]) }

  /** isValidUsername. No class of the pattern contains '@' and the last group
      contains no '.', so the one '@' is the first '@' of the string and the
      '.' before the top-level domain is the last '.' of the string: the check
      finds both and tests the three parts between them. */
  function IsValidUsername(username: string): bool
  {
    var at := IndexOf(username, '@');
    var dot := LastIndexOf(username, '.');
    && 0 < at
    && at + 1 < dot
    && dot + 2 < |username|
    && AllLocal(username[..at])
    && AllDomain(username[at + 1..dot])
    && AllAsciiLetters(username[dot + 1..])
  }

  /** `username` is local + "@" + domain + "." + tld with the '@' at index
      `at` and that '.' at index `dot`. */
  ghost predicate EmailParts(username: string, at: int, dot: int) {
    && 0 < at < dot < |username|
    && username[at] == '@' && username[dot] == '.'
    && at + 1 < dot
    && |username| - dot - 1 >= 2
    && AllLocal(username[..at])
    && AllDomain(username[at + 1..dot])
    && AllAsciiLetters(username[dot + 1..])
  }

  /** The language of the e-mail pattern: a non-empty local part over
      [A-Za-z0-9._%+-], "@", a non-empty domain over [A-Za-z0-9.-], ".", and a
      top-level domain of at least two ASCII letters. */
  ghost predicate EmailShape(username: string) {
    exists at, dot :: EmailParts(username, at, dot)
  }

  lemma IsValidUsernameMeansEmailShape(username: string)
    ensures IsValidUsername(username) <==> EmailShape(username)
  {
    var at := IndexOf(username, '@');
    var dot := LastIndexOf(username, '.');
    if IsValidUsername(username) {
      assert EmailParts(username, at, dot);
    }
    if EmailShape(username) {
      var at', dot' :| EmailParts(username, at', dot');
      assert at == at' by {
        assert forall i | 0 <= i < at' :: username[i] == username[..at'][i];
      }
      assert dot == dot' by {
        assert forall i | dot' < i < |username| :: username[i] == username[dot' + 1..][i - dot' - 1];
      }
    }
  }

  lemma SampleEmailAccepted()
    ensures IsValidUsername("aa@gmail.com")
  {
    var e := "aa@gmail.com";
    assert e[2] == '@' && e[8] == '.';
    assert e[..2] == "aa" && AllLocal("aa");
    assert e[3..8] == "gmail" && AllDomain("gmail");
    assert e[9..] == "com" && AllAsciiLetters("com");
    assert EmailParts(e, 2, 8);
    IsValidUsernameMeansEmailShape("aa@gmail.com");
  }

  // ---- isValidPhone: ^\+7\(\d{3}\)\d{3}-\d{2}-\d{2}$ ----

  /** The phone template: 'd' marks a digit slot, every other character must
      appear literally. */
  const PhoneTemplate: string := "+7(ddd)ddd-dd-dd"

  predicate SlotAccepts(slot: char, c: char) {
    if slot == 'd' then Decimal.IsDigit(c) else c == slot
  }

  /** Matches `s` against a template character by character. */
  function MatchesTemplate(s: string, template: string): (r: bool)
    ensures r <==> |s| == |template| && forall i | 0 <= i < |s| :: SlotAccepts(template[i], s[i])
  {
    if |s| != |template| then false
    else if s == [] then true
    else SlotAccepts(template[0], s[0]) && MatchesTemplate(s[1..], template[1..])
  }

  /** isValidPhone. */
  function IsValidPhone(phone: string): bool
  {
    MatchesTemplate(phone, PhoneTemplate)
  }

  /** The number written with ten digits in the template's groups of 3, 3, 2, 2. */
  function PhoneFromDigits(ds: string): (s: string)
    requires |ds| == 10
  {
    "+7(" + ds[..3] + ")" + ds[3..6] + "-" + ds[6..8] + "-" + ds[8..]
  }

  /** The language of the phone pattern: "+7(" then three digits, ")", three
      digits, "-", two digits, "-", two digits. */
  ghost predicate PhoneShape(phone: string) {
    exists ds :: |ds| == 10 && Decimal.AllDigits(ds) && PhoneFromDigits(ds) == phone
  }

  lemma IsValidPhoneMeansPhoneShape(phone: string)
    ensures IsValidPhone(phone) <==> PhoneShape(phone)
  {
    if IsValidPhone(phone) {
      ValidPhoneHasShape(phone);
    }
    if PhoneShape(phone) {
      var ds :| |ds| == 10 && Decimal.AllDigits(ds) && PhoneFromDigits(ds) == phone;
      ShapedPhoneIsValid(ds);
    }
  }

  /** Where the j-th of the ten digits sits in the template. */
  function DigitSlot(j: int): (i: int)
    requires 0 <= j < 10
    ensures 0 <= i < |PhoneTemplate| && PhoneTemplate[i] == 'd'
  {
    if j < 3 then j + 3 else if j < 6 then j + 4 else if j < 8 then j + 5 else j + 6
  }

  /** PhoneFromDigits puts the literals of the template in place and the j-th
      digit at DigitSlot(j). */
  lemma PhoneFromDigitsLayout(ds: string)
    requires |ds| == 10
    ensures |PhoneFromDigits(ds)| == |PhoneTemplate|
    ensures forall i | 0 <= i < |PhoneTemplate| && PhoneTemplate[i] != 'd' :: PhoneFromDigits(ds)[i] == PhoneTemplate[i]
    ensures forall j | 0 <= j < 10 :: PhoneFromDigits(ds)[DigitSlot(j)] == ds[j]
  {
    var phone := PhoneFromDigits(ds);
    assert phone[..3] == "+7(";
    assert phone[6] == ')' && phone[10] == '-' && phone[13] == '-';
  }

  lemma ValidPhoneHasShape(phone: string)
    requires IsValidPhone(phone)
    ensures PhoneShape(phone)
  {
    var ds := seq(10, j requires 0 <= j < 10 => phone[DigitSlot(j)]);
    assert Decimal.AllDigits(ds) by {
      forall j | 0 <= j < 10 ensures Decimal.IsDigit(ds[j]) {
        assert SlotAccepts(PhoneTemplate[DigitSlot(j)], phone[DigitSlot(j)]);
      }
    }
    PhoneFromDigitsLayout(ds);
    var built := PhoneFromDigits(ds);
    forall i | 0 <= i < |phone| ensures built[i] == phone[i] {
      if PhoneTemplate[i] == 'd' {
        var j := if i < 6 then i - 3 else if i < 10 then i - 4 else if i < 13 then i - 5 else i - 6;
        assert DigitSlot(j) == i;
      } else {
        assert SlotAccepts(PhoneTemplate[i], phone[i]);
      }
    }
    assert built == phone;
  }

  lemma ShapedPhoneIsValid(ds: string)
    requires |ds| == 10 && Decimal.AllDigits(ds)
    ensures IsValidPhone(PhoneFromDigits(ds))
  {
    PhoneFromDigitsLayout(ds);
    var phone := PhoneFromDigits(ds);
    forall i | 0 <= i < |phone| ensures SlotAccepts(PhoneTemplate[i], phone[i]) {
      if PhoneTemplate[i] == 'd' {
        var j := if i < 6 then i - 3 else if i < 10 then i - 4 else if i < 13 then i - 5 else i - 6;
        assert DigitSlot(j) == i;
      }
    }
  }

  lemma SamplePhones()
    ensures IsValidPhone("+7(000)000-00-00")
    ensures !IsValidPhone("8-000-000-00-00")
  {
    ShapedPhoneIsValid("0000000000");
    assert PhoneFromDigits("0000000000") == "+7(000)000-00-00";
  }

  // ---- isValidPrice ----

  /** isValidPrice: a non-null price within [min, max]. */
  function IsValidPrice(price: Option<int>, min: int, max: int): (r: bool)
    ensures r <==> price.Some? && min <= price.value <= max
  {
    price != None && price.value >= min && price.value <= max
  }
}
