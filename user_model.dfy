/** The `User` document of the `users` collection, its embedded documents,
    the contact validators, `full_name`, the token generator, document
    validation on save, and the collection itself with its unique indexes
    on `_id`, `phone_number` and `access_token`. */
module UserModel {

  import opened Common
  import opened Calendar
  import opened Regex

  // Character classes of the three validator patterns.

  const UPPER: (char, char) := ('A', 'Z')
  const LOWER: (char, char) := ('a', 'z')
  const DIGITS: (char, char) := ('0', '9')

  /** `[A-Za-z0-9]` */
  const ALNUM: CharClass := [UPPER, LOWER, DIGITS]
  /** `[A-Za-z]` */
  const LETTERS: CharClass := [UPPER, LOWER]
  /** `[a-zA-Z0-9_]` */
  const WORD: CharClass := [LOWER, UPPER, DIGITS, ('_', '_')]
  /** `[0-9]` */
  const DIGIT_CLASS: CharClass := [DIGITS]
  /** `[A-Za-z0-9-]` */
  const HOST_CHARS: CharClass := [UPPER, LOWER, DIGITS, ('-', '-')]
  /** `[.-_]` as written: the range from '.' to '_'. */
  const SEPARATORS_AS_WRITTEN: CharClass := [('.', '_')]
  /** `[A-Z|a-z]` as written: the two letter ranges and '|'. */
  const TLD_AS_WRITTEN: CharClass := [UPPER, ('|', '|'), LOWER]
  /** `[.\-_]`: the three separators. */
  const SEPARATORS: CharClass := [('.', '.'), ('-', '-'), ('_', '_')]
  /** `[A-Za-z]` */
  const TLD: CharClass := LETTERS

  /** The pattern of `validate_email` as written. */
  const EMAIL_PATTERN_AS_WRITTEN: Re := Email(ALNUM, SEPARATORS_AS_WRITTEN, HOST_CHARS, TLD_AS_WRITTEN)
  /** The pattern `validate_email` evidently means. */
  const EMAIL_PATTERN: Re := Email(ALNUM, SEPARATORS, HOST_CHARS, TLD)
  /** `[A-Za-z]{1}[a-zA-Z0-9_]{4,31}` */
  const TELEGRAM_PATTERN: Re := Cat(Rep(Class(LETTERS), 1, 1), Rep(Class(WORD), 4, 31))
  /** `[0-9]{1,20}` */
  const CHAT_ID_PATTERN: Re := Rep(Class(DIGIT_CLASS), 1, 20)

  predicate IsLetter(c: char) {
    'A' <= c <= 'Z' || 'a' <= c <= 'z'
  }

  predicate IsDigit(c: char) {
    '0' <= c <= '9'
  }

  predicate IsAlnum(c: char) {
    IsLetter(c) || IsDigit(c)
  }

  lemma LettersClass(c: char)
    ensures InClass(LETTERS, c) <==> IsLetter(c)
  {
    if 'A' <= c <= 'Z' { assert LETTERS[0].0 <= c <= LETTERS[0].1; }
    if 'a' <= c <= 'z' { assert LETTERS[1].0 <= c <= LETTERS[1].1; }
  }

  lemma WordClass(c: char)
    ensures InClass(WORD, c) <==> IsAlnum(c) || c == '_'
  {
    if 'a' <= c <= 'z' { assert WORD[0].0 <= c <= WORD[0].1; }
    if 'A' <= c <= 'Z' { assert WORD[1].0 <= c <= WORD[1].1; }
    if '0' <= c <= '9' { assert WORD[2].0 <= c <= WORD[2].1; }
    if c == '_' { assert WORD[3].0 <= c <= WORD[3].1; }
    if InClass(WORD, c) {
      var i :| 0 <= i < |WORD| && WORD[i].0 <= c <= WORD[i].1;
      assert i == 0 || i == 1 || i == 2 || i == 3;
    }
  }

  lemma DigitClass(c: char)
    ensures InClass(DIGIT_CLASS, c) <==> IsDigit(c)
  {
    if IsDigit(c) { assert DIGIT_CLASS[0].0 <= c <= DIGIT_CLASS[0].1; }
  }

  lemma NoDotInTld()
    ensures !InClass(TLD_AS_WRITTEN, '.') && !InClass(TLD, '.')
  {
    forall i | 0 <= i < |TLD_AS_WRITTEN| ensures !(TLD_AS_WRITTEN[i].0 <= '.' <= TLD_AS_WRITTEN[i].1) {
      assert i == 0 || i == 1 || i == 2;
    }
    forall i | 0 <= i < |TLD| ensures !(TLD[i].0 <= '.' <= TLD[i].1) {
      assert i == 0 || i == 1;
    }
  }

  /** A Telegram username: an ASCII letter, then 4 to 31 letters, digits or
      underscores. */
  predicate TelegramUsernameOk(s: string) {
    5 <= |s| <= 32 && IsLetter(s[0]) && forall i :: 1 <= i < |s| ==> IsAlnum(s[i]) || s[i] == '_'
  }

  /** The username pattern accepts exactly those strings, 5 to 32 long. */
  lemma TelegramPatternExactly(s: string)
    ensures Matches(TELEGRAM_PATTERN, s) <==> TelegramUsernameOk(s)
  {
    HeadThenRep(LETTERS, WORD, 4, 31, s);
    if s != [] {
      LettersClass(s[0]);
      if AllIn(WORD, s[1..]) {
        forall i | 1 <= i < |s| ensures IsAlnum(s[i]) || s[i] == '_' {
          assert s[1..][i - 1] == s[i];
          WordClass(s[i]);
        }
      }
      if forall i :: 1 <= i < |s| ==> IsAlnum(s[i]) || s[i] == '_' {
        forall i | 0 <= i < |s| - 1 ensures InClass(WORD, s[1..][i]) {
          assert s[1..][i] == s[i + 1];
          WordClass(s[i + 1]);
        }
      }
    }
  }

  /** A Telegram chat id: 1 to 20 ASCII digits. */
  predicate ChatIdOk(s: string) {
    1 <= |s| <= 20 && forall i :: 0 <= i < |s| ==> IsDigit(s[i])
  }

  lemma ChatIdPatternExactly(s: string)
    ensures Matches(CHAT_ID_PATTERN, s) <==> ChatIdOk(s)
  {
    RepClass(DIGIT_CLASS, 1, 20, s);
    forall i | 0 <= i < |s| ensures InClass(DIGIT_CLASS, s[i]) <==> IsDigit(s[i]) {
      DigitClass(s[i]);
    }
  }

  /** `validate_email` with its pattern as written. */
  function ValidateEmailAsWritten(email: string): (e: Option<Exception>)
    ensures e.None? <==> Matches(EMAIL_PATTERN_AS_WRITTEN, email)
    ensures e.Some? ==> e.value == ValidationError("Invalid email address: " + email)
  {
    NoDotInTld();
    EmailExactly(ALNUM, SEPARATORS_AS_WRITTEN, HOST_CHARS, TLD_AS_WRITTEN, email);
    if EmailOk(ALNUM, SEPARATORS_AS_WRITTEN, HOST_CHARS, TLD_AS_WRITTEN, email) then None
    else Some(ValidationError("Invalid email address: " + email))
  }

  /** `validate_email` with the separators and suffix letters it means. */
  function ValidateEmail(email: string): (e: Option<Exception>)
    ensures e.None? <==> Matches(EMAIL_PATTERN, email)
    ensures e.Some? ==> e.value == ValidationError("Invalid email address: " + email)
  {
    NoDotInTld();
    EmailExactly(ALNUM, SEPARATORS, HOST_CHARS, TLD, email);
    if EmailOk(ALNUM, SEPARATORS, HOST_CHARS, TLD, email) then None
    else Some(ValidationError("Invalid email address: " + email))
  }

  /** `validate_telegram_username`. */
  function ValidateTelegramUsername(username: string): (e: Option<Exception>)
    ensures e.None? <==> Matches(TELEGRAM_PATTERN, username)
    ensures e.Some? ==> e.value == ValidationError("Invalid Telegram username: " + username)
  {
    TelegramPatternExactly(username);
    if TelegramUsernameOk(username) then None
    else Some(ValidationError("Invalid Telegram username: " + username))
  }

  /** `validate_telegram_chat_id`. */
  function ValidateTelegramChatId(chatId: string): (e: Option<Exception>)
    ensures e.None? <==> Matches(CHAT_ID_PATTERN, chatId)
    ensures e.Some? ==> e.value == ValidationError("Invalid Telegram chat ID: " + chatId)
  {
    ChatIdPatternExactly(chatId);
    if ChatIdOk(chatId) then None
    else Some(ValidationError("Invalid Telegram chat ID: " + chatId))
  }

  // The e-mail pattern as written, on two addresses.

  lemma InRange(cs: CharClass, i: nat, c: char)
    requires i < |cs| && cs[i].0 <= c <= cs[i].1
    ensures InClass(cs, c)
  {
  }

  /** The address of the as-written finding: a hyphen between two letters. */
  const HYPHENATED: string := "a-b@cd.ef"
  /** The address of the as-written finding: two `@`. */
  const TWO_ATS: string := "a@b@cd.ef"

  /** `cd.ef` is a domain for either suffix class. */
  lemma DomainCdEf(tld: CharClass)
    requires (forall c :: 'a' <= c <= 'z' ==> InClass(tld, c)) && !InClass(tld, '.')
    ensures HostOk(HOST_CHARS, tld, "cd.ef")
  {
    var s := "cd.ef";
    InRange(HOST_CHARS, 1, 'c');
    InRange(HOST_CHARS, 1, 'd');
    assert AllIn(HOST_CHARS, s[..2]) by {
      forall i | 0 <= i < 2 ensures InClass(HOST_CHARS, s[..2][i]) {
        assert i == 0 || i == 1;
      }
    }
    var t := s[2..];
    assert t == ".ef";
    forall i | 0 <= i < |t| ensures InGroups(tld, t, i) {
      assert i == 0 || i == 1 || i == 2;
    }
    assert GroupsOk(tld, t);
  }

  /** The pattern as written refuses `a-b@cd.ef`, which has a hyphen in its
      local part, and accepts `a@b@cd.ef`, which has two `@`. */
  lemma EmailAsWrittenFinding()
    ensures !Matches(EMAIL_PATTERN_AS_WRITTEN, HYPHENATED)
    ensures Matches(EMAIL_PATTERN_AS_WRITTEN, TWO_ATS)
  {
    NoDotInTld();
    EmailExactly(ALNUM, SEPARATORS_AS_WRITTEN, HOST_CHARS, TLD_AS_WRITTEN, HYPHENATED);
    EmailExactly(ALNUM, SEPARATORS_AS_WRITTEN, HOST_CHARS, TLD_AS_WRITTEN, TWO_ATS);
    // no `@` of HYPHENATED has a valid local part in front of it
    forall k | 0 <= k < |HYPHENATED| && HYPHENATED[k] == '@'
      ensures !LocalOk(ALNUM, SEPARATORS_AS_WRITTEN, HYPHENATED[..k])
    {
      assert k != 0 && k != 1;
      var l := HYPHENATED[..k];
      assert l[1] == '-';
      assert !InClass(ALNUM, '-') by {
        forall i | 0 <= i < |ALNUM| ensures !(ALNUM[i].0 <= '-' <= ALNUM[i].1) {
          assert i == 0 || i == 1 || i == 2;
        }
      }
      assert !InClass(SEPARATORS_AS_WRITTEN, '-') by {
        assert |SEPARATORS_AS_WRITTEN| == 1;
      }
      assert !Flanked(ALNUM, SEPARATORS_AS_WRITTEN, l, 1);
    }
    // the second `@` of TWO_ATS ends a valid local part `a@b`
    forall c | 'a' <= c <= 'z' ensures InClass(TLD_AS_WRITTEN, c) {
      InRange(TLD_AS_WRITTEN, 2, c);
    }
    DomainCdEf(TLD_AS_WRITTEN);
    var l := TWO_ATS[..3];
    assert l == "a@b";
    InRange(ALNUM, 1, 'a');
    InRange(ALNUM, 1, 'b');
    InRange(SEPARATORS_AS_WRITTEN, 0, '@');
    forall i | 0 <= i < |l| ensures Flanked(ALNUM, SEPARATORS_AS_WRITTEN, l, i) {
      assert i == 0 || i == 1 || i == 2;
    }
    assert TWO_ATS[4..] == "cd.ef";
    assert EmailOk(ALNUM, SEPARATORS_AS_WRITTEN, HOST_CHARS, TLD_AS_WRITTEN, TWO_ATS) by {
      assert TWO_ATS[3] == '@';
    }
  }

  /** The intended pattern accepts `a-b@cd.ef`. */
  lemma EmailAcceptsHyphen()
    ensures Matches(EMAIL_PATTERN, HYPHENATED)
  {
    NoDotInTld();
    EmailExactly(ALNUM, SEPARATORS, HOST_CHARS, TLD, HYPHENATED);
    forall c | 'a' <= c <= 'z' ensures InClass(TLD, c) {
      InRange(TLD, 1, c);
    }
    DomainCdEf(TLD);
    var l := HYPHENATED[..3];
    assert l == "a-b";
    InRange(ALNUM, 1, 'a');
    InRange(ALNUM, 1, 'b');
    InRange(SEPARATORS, 1, '-');
    forall i | 0 <= i < |l| ensures Flanked(ALNUM, SEPARATORS, l, i) {
      assert i == 0 || i == 1 || i == 2;
    }
    assert HYPHENATED[4..] == "cd.ef";
    assert EmailOk(ALNUM, SEPARATORS, HOST_CHARS, TLD, HYPHENATED) by {
      assert HYPHENATED[3] == '@';
    }
  }

  /** Under the intended pattern an address has exactly one `@`. */
  lemma EmailHasOneAt(s: string)
    requires Matches(EMAIL_PATTERN, s)
    ensures exists k :: 0 <= k < |s| && s[k] == '@' && forall j :: 0 <= j < |s| && s[j] == '@' ==> j == k
  {
    NoDotInTld();
    EmailExactly(ALNUM, SEPARATORS, HOST_CHARS, TLD, s);
    var k :| 0 <= k < |s| && s[k] == '@' && LocalOk(ALNUM, SEPARATORS, s[..k]) && HostOk(HOST_CHARS, TLD, s[k + 1..]);
    forall j | 0 <= j < |s| && j != k ensures s[j] != '@' {
      if j < k {
        assert s[..k][j] == s[j];
        LocalHasNoAt(s[..k], j);
      } else {
        assert s[k + 1..][j - k - 1] == s[j];
        HostHasNoAt(s[k + 1..], j - k - 1);
      }
    }
  }

  /** The part before the `@` has none. */
  lemma LocalHasNoAt(local: string, j: nat)
    requires LocalOk(ALNUM, SEPARATORS, local) && j < |local|
    ensures local[j] != '@'
  {
    NoAtIn(ALNUM);
    NoAtIn(SEPARATORS);
    assert Flanked(ALNUM, SEPARATORS, local, j);
  }

  /** Nor does the domain. */
  lemma HostHasNoAt(h: string, j: nat)
    requires HostOk(HOST_CHARS, TLD, h) && j < |h|
    ensures h[j] != '@'
  {
    NoAtIn(HOST_CHARS);
    NoAtIn(TLD);
    var m :| 0 < m < |h| && AllIn(HOST_CHARS, h[..m]) && GroupsOk(TLD, h[m..]);
    if j < m {
      assert h[..m][j] == h[j];
    } else {
      assert h[m..][j - m] == h[j];
      assert InGroups(TLD, h[m..], j - m);
    }
  }

  lemma NoAtIn(cs: CharClass)
    requires cs in {ALNUM, SEPARATORS, HOST_CHARS, TLD}
    ensures !InClass(cs, '@')
  {
    forall i | 0 <= i < |cs| ensures !(cs[i].0 <= '@' <= cs[i].1) {
      assert i == 0 || i == 1 || i == 2 || i == 3;
    }
  }

  // `str.isspace()` and `str.strip()`.

  /** The characters for which `str.isspace()` holds. */
  predicate IsSpace(c: char) {
    var n := c as int;
    (9 <= n <= 13) || (28 <= n <= 32) || n == 0x85 || n == 0xA0 || n == 0x1680
    || (0x2000 <= n <= 0x200A) || n == 0x2028 || n == 0x2029 || n == 0x202F
    || n == 0x205F || n == 0x3000
  }

  predicate AllSpace(s: string) {
    forall i :: 0 <= i < |s| ==> IsSpace(s[i])
  }

  /** The number of whitespace characters `s` starts with. */
  function LeadingSpaces(s: string): (n: nat)
    ensures n <= |s| && AllSpace(s[..n])
    ensures n < |s| ==> !IsSpace(s[n])
    decreases |s|
  {
    if s != [] && IsSpace(s[0]) then
      var m := LeadingSpaces(s[1..]);
      assert s[..1 + m] == [s[0]] + s[1..][..m];
      1 + m
    else 0
  }

  /** The number of whitespace characters `s` ends with. */
  function TrailingSpaces(s: string): (n: nat)
    ensures n <= |s| && AllSpace(s[|s| - n..])
    ensures n < |s| ==> !IsSpace(s[|s| - 1 - n])
    decreases |s|
  {
    if s != [] && IsSpace(s[|s| - 1]) then
      var init := s[..|s| - 1];
      var m := TrailingSpaces(init);
      assert s[|s| - (1 + m)..] == init[|init| - m..] + [s[|s| - 1]];
      1 + m
    else 0
  }

  /** `str.strip()`: `s` without its leading and trailing whitespace. The
      result is a slice of `s` with only whitespace around it, and it neither
      starts nor ends with whitespace. */
  function Strip(s: string): (t: string)
    ensures exists i :: 0 <= i <= |s| - |t| && t == s[i..i + |t|] && AllSpace(s[..i]) && AllSpace(s[i + |t|..])
    ensures t != [] ==> !IsSpace(t[0]) && !IsSpace(t[|t| - 1])
    ensures t == [] <==> AllSpace(s)
  {
    var i := LeadingSpaces(s);
    if i == |s| then
      assert s[..i] == s && s[i..i] == [];
      []
    else
      var j := TrailingSpaces(s);
      StripParts(s, i, j);
      assert s[i..|s| - j] == s[i..i + (|s| - j - i)];
      s[i..|s| - j]
  }

  /** Once a non-space character is found from the left, the trailing
      whitespace lies entirely to its right. */
  lemma StripParts(s: string, i: nat, j: nat)
    requires i < |s| && AllSpace(s[..i]) && !IsSpace(s[i])
    requires j <= |s| && AllSpace(s[|s| - j..]) && (j < |s| ==> !IsSpace(s[|s| - 1 - j]))
    ensures i < |s| - j && !IsSpace(s[|s| - j - 1]) && !AllSpace(s)
  {
  }

  /** A string with no whitespace at either end is its own strip. */
  lemma StripKeepsTrimmed(s: string)
    requires s != [] && !IsSpace(s[0]) && !IsSpace(s[|s| - 1])
    ensures Strip(s) == s
  {
    assert LeadingSpaces(s) == 0;
    assert s[0..] == s;
    assert TrailingSpaces(s) == 0;
  }

  // The document and its embedded documents.

  /** `password`: the text given to the constructor, or the bcrypt digest
      `clean` puts in its place. */
  datatype Password = Plain(text: string) | Digest(hash: string)

  /** `UserDetails`. A name the creator did not supply is `None`. */
  datatype UserDetails = UserDetails(firstName: Option<string>, lastName: Option<string>, dateOfBirth: Option<Instant>)

  datatype EmailContact = EmailContact(contact: string)

  datatype TelegramContact = TelegramContact(contact: string, chatId: Option<string>)

  /** `Contacts`: either contact may be absent (`null=True`). */
  datatype Contacts = Contacts(email: Option<EmailContact>, telegram: Option<TelegramContact>)

  datatype Balance = Balance(amount: int, lastTopup: Option<Instant>)

  datatype User = User(
    id: string,
    phoneNumber: string,
    password: Password,
    accessToken: string,
    role: string,
    status: string,
    details: UserDetails,
    profilePicture: Option<string>,
    contacts: Contacts,
    signupDate: Instant,
    lastLogin: Option<Instant>,
    balance: Balance)

  const ROLES: seq<string> := ["user", "admin"]
  const STATUSES: seq<string> := ["active", "deactivated", "pending_verification"]
  const ACTIVE: string := "active"
  const DEACTIVATED: string := "deactivated"
  const PENDING: string := "pending_verification"
  /** The status the inactivity task writes; it is not among `STATUSES`. */
  const INACTIVE: string := "inactive"

  lemma InactiveIsNotAChoice()
    ensures INACTIVE !in STATUSES
  {
  }

  const NAME_MAX: nat := 100
  const EMAIL_MAX: nat := 254
  const TELEGRAM_MAX: nat := 32
  const CHAT_ID_MAX: nat := 20

  /** A new document from the constructor keywords, with the defaults of the
      other fields: a generated access token, sign-up at `now`, no contacts,
      no picture, no login yet and an empty balance. */
  function NewUser(id: string, phoneNumber: string, password: string, firstName: Option<string>,
                   lastName: Option<string>, status: string, role: string, token: string, now: Instant): (u: User)
    ensures u.id == id && u.phoneNumber == phoneNumber && u.password == Plain(password)
    ensures u.details == UserDetails(firstName, lastName, None)
    ensures u.status == status && u.role == role && u.accessToken == token && u.signupDate == now
    ensures u.contacts == Contacts(None, None) && u.profilePicture.None? && u.lastLogin.None?
    ensures u.balance == Balance(0, None)
  {
    User(id, phoneNumber, Plain(password), token, role, status, UserDetails(firstName, lastName, None),
         None, Contacts(None, None), now, None, Balance(0, None))
  }

  /** A name as an f-string prints it: `None` when it is missing. */
  function NameText(name: Option<string>): string {
    if name.Some? then name.value else "None"
  }

  /** `UserDetails.full_name`. */
  function FullName(d: UserDetails): string {
    Strip(NameText(d.firstName) + " " + NameText(d.lastName))
  }

  /** Names with no whitespace at their outer ends are joined by one space. */
  lemma FullNameOfTrimmedNames(first: string, last: string, dob: Option<Instant>)
    requires first != [] && !IsSpace(first[0])
    requires last != [] && !IsSpace(last[|last| - 1])
    ensures FullName(UserDetails(Some(first), Some(last), dob)) == first + " " + last
  {
    var s := first + " " + last;
    assert s[0] == first[0] && s[|s| - 1] == last[|last| - 1];
    StripKeepsTrimmed(s);
  }

  /** The full name is empty exactly when both names are whitespace only. */
  lemma FullNameEmpty(d: UserDetails)
    ensures FullName(d) == "" <==> AllSpace(NameText(d.firstName)) && AllSpace(NameText(d.lastName))
  {
    var a, b := NameText(d.firstName), NameText(d.lastName);
    var s := a + " " + b;
    if AllSpace(a) && AllSpace(b) {
      forall k | 0 <= k < |s| ensures IsSpace(s[k]) {
        if k < |a| { assert s[k] == a[k]; }
        else if k > |a| { assert s[k] == b[k - |a| - 1]; }
      }
    }
    if AllSpace(s) {
      forall k | 0 <= k < |a| ensures IsSpace(a[k]) { assert a[k] == s[k]; }
      forall k | 0 <= k < |b| ensures IsSpace(b[k]) { assert b[k] == s[k + |a| + 1]; }
    }
  }

  // `generate_random_token`.

  const ASCII_LOWERCASE: string := seq(26, i requires 0 <= i < 26 => ('a' as int + i) as char)
  const ASCII_UPPERCASE: string := seq(26, i requires 0 <= i < 26 => ('A' as int + i) as char)
  const ASCII_DIGITS: string := seq(10, i requires 0 <= i < 10 => ('0' as int + i) as char)
  /** `string.ascii_letters + string.digits`. */
  const TOKEN_CHARS: string := ASCII_LOWERCASE + ASCII_UPPERCASE + ASCII_DIGITS
  const TOKEN_LENGTH: nat := 32

  lemma TokenCharsAreAlnum()
    ensures |TOKEN_CHARS| == 62
    ensures forall i :: 0 <= i < |TOKEN_CHARS| ==> IsAlnum(TOKEN_CHARS[i])
  {
    forall i | 0 <= i < |TOKEN_CHARS| ensures IsAlnum(TOKEN_CHARS[i]) {
      if i < 26 { assert TOKEN_CHARS[i] == ASCII_LOWERCASE[i]; }
      else if i < 52 { assert TOKEN_CHARS[i] == ASCII_UPPERCASE[i - 26]; }
      else { assert TOKEN_CHARS[i] == ASCII_DIGITS[i - 52]; }
    }
  }

  /** The position of an ASCII letter or digit in `TOKEN_CHARS`. */
  function TokenIndex(c: char): nat {
    if 'a' <= c <= 'z' then (c as int) - ('a' as int)
    else if 'A' <= c <= 'Z' then 26 + (c as int) - ('A' as int)
    else if '0' <= c <= '9' then 52 + (c as int) - ('0' as int)
    else 0
  }

  lemma TokenIndexFinds(c: char)
    requires IsAlnum(c)
    ensures TokenIndex(c) < |TOKEN_CHARS| && TOKEN_CHARS[TokenIndex(c)] == c
  {
    var k := TokenIndex(c);
    if 'a' <= c <= 'z' {
      assert TOKEN_CHARS[k] == ASCII_LOWERCASE[k];
    } else if 'A' <= c <= 'Z' {
      assert TOKEN_CHARS[k] == ASCII_UPPERCASE[k - 26];
    } else {
      assert TOKEN_CHARS[k] == ASCII_DIGITS[k - 52];
    }
  }

  /** `generate_random_token()`. `pick(i)` is the random draw for position
      `i`, reduced to an index into the alphabet. */
  function GenerateRandomToken(pick: nat -> nat): (t: string)
    ensures |t| == TOKEN_LENGTH
    ensures forall i :: 0 <= i < |t| ==> IsAlnum(t[i])
  {
    TokenCharsAreAlnum();
    seq(TOKEN_LENGTH, i requires 0 <= i < TOKEN_LENGTH => TOKEN_CHARS[pick(i) % |TOKEN_CHARS|])
  }

  /** Every 32-character string of ASCII letters and digits can come out of
      the generator: the tokens are exactly those strings. */
  lemma EveryTokenCanBeDrawn(t: string)
    requires |t| == TOKEN_LENGTH && forall i :: 0 <= i < |t| ==> IsAlnum(t[i])
    ensures exists pick: nat -> nat :: GenerateRandomToken(pick) == t
  {
    TokenCharsAreAlnum();
    var pick := (i: nat) => if i < |t| then TokenIndex(t[i]) else 0;
    var g := GenerateRandomToken(pick);
    forall i | 0 <= i < |t| ensures g[i] == t[i] {
      TokenIndexFinds(t[i]);
      assert pick(i) % |TOKEN_CHARS| == TokenIndex(t[i]);
    }
    assert g == t;
  }

  // Validation on save.

  const REQUIRED_MSG: string := "Field is required"
  const TOO_LONG_MSG: string := "String value is too long"
  const ROLE_CHOICES_MSG: string := "Value must be one of ['user', 'admin']"
  const STATUS_CHOICES_MSG: string := "Value must be one of ['active', 'deactivated', 'pending_verification']"
  const PHONE_REQUIRED_MSG: string := "Phone number is required"

  /** `User.clean`: a plain password is replaced by its digest. `hashpw` is
      bcrypt with a salt of its choosing. */
  function Clean(u: User, hashpw: string -> string): (c: User)
    ensures c.password.Digest?
    ensures u.password.Digest? ==> c == u
    ensures u.password.Plain? ==> c == u.(password := Digest(hashpw(u.password.text)))
  {
    if u.password.Plain? then u.(password := Digest(hashpw(u.password.text))) else u
  }

  /** The errors of one string field: those of its `validation` callable
      first, then its length. */
  function StringFieldErrors(value: string, check: Option<Exception>, maxLength: nat): seq<string> {
    if check.Some? && check.value.ValidationError? then [check.value.message]
    else if |value| > maxLength then [TOO_LONG_MSG]
    else []
  }

  function NameErrors(name: Option<string>): seq<string> {
    if name.None? then [REQUIRED_MSG]
    else if |name.value| > NAME_MAX then [TOO_LONG_MSG]
    else []
  }

  function ContactErrors(c: Contacts): seq<string> {
    (if c.email.Some? then StringFieldErrors(c.email.value.contact, ValidateEmailAsWritten(c.email.value.contact), EMAIL_MAX) else [])
    + (if c.telegram.Some? then
         StringFieldErrors(c.telegram.value.contact, ValidateTelegramUsername(c.telegram.value.contact), TELEGRAM_MAX)
         + (if c.telegram.value.chatId.Some? then
              StringFieldErrors(c.telegram.value.chatId.value, ValidateTelegramChatId(c.telegram.value.chatId.value), CHAT_ID_MAX)
            else [])
       else [])
  }

  /** The error of the `profile_picture` URL field, if it holds one that
      `checkUrl` refuses; a missing picture is not checked. */
  function PictureErrors(picture: Option<string>, checkUrl: string -> Option<string>): seq<string> {
    if picture.Some? && checkUrl(picture.value).Some? then [checkUrl(picture.value).value] else []
  }

  /** The field errors mongoengine collects, in field order. `checkUrl` is
      `URLField.validate`: `None` for a URL it accepts, else its message. */
  function FieldErrors(u: User, checkUrl: string -> Option<string>): seq<string> {
    (if u.role !in ROLES then [ROLE_CHOICES_MSG] else [])
    + (if u.status !in STATUSES then [STATUS_CHOICES_MSG] else [])
    + NameErrors(u.details.firstName) + NameErrors(u.details.lastName)
    + PictureErrors(u.profilePicture, checkUrl)
    + ContactErrors(u.contacts)
  }

  /** `User.validate` after `clean`: the field checks, then the non-empty
      phone number. */
  function Validate(u: User, checkUrl: string -> Option<string>): Option<Exception> {
    var errors := FieldErrors(u, checkUrl);
    if errors != [] then Some(ValidationError(errors[0]))
    else if u.phoneNumber == "" then Some(ValidationError(PHONE_REQUIRED_MSG))
    else None
  }

  /** What a document that passes validation is, stated with the patterns. */
  ghost predicate WellFormed(u: User, checkUrl: string -> Option<string>) {
    && u.role in ROLES && u.status in STATUSES && u.phoneNumber != ""
    && u.details.firstName.Some? && |u.details.firstName.value| <= NAME_MAX
    && u.details.lastName.Some? && |u.details.lastName.value| <= NAME_MAX
    && (u.profilePicture.Some? ==> checkUrl(u.profilePicture.value).None?)
    && (u.contacts.email.Some? ==>
          Matches(EMAIL_PATTERN_AS_WRITTEN, u.contacts.email.value.contact) && |u.contacts.email.value.contact| <= EMAIL_MAX)
    && (u.contacts.telegram.Some? ==>
          && Matches(TELEGRAM_PATTERN, u.contacts.telegram.value.contact)
          && (u.contacts.telegram.value.chatId.Some? ==>
                Matches(CHAT_ID_PATTERN, u.contacts.telegram.value.chatId.value)))
  }

  /** Validation passes exactly on well-formed documents. A Telegram username
      the pattern accepts is at most 32 long and a chat id at most 20, so the
      length limits of those two fields never fire on their own. */
  lemma ValidateExactly(u: User, checkUrl: string -> Option<string>)
    ensures Validate(u, checkUrl).None? <==> WellFormed(u, checkUrl)
  {
    var c := u.contacts;
    if c.telegram.Some? {
      TelegramPatternExactly(c.telegram.value.contact);
      if c.telegram.value.chatId.Some? {
        ChatIdPatternExactly(c.telegram.value.chatId.value);
      }
    }
  }

  /** `check_password`. `checkpw(candidate, digest)` is bcrypt's comparison. */
  function CheckPassword(u: User, candidate: string, checkpw: (string, string) -> bool): (r: Result<bool, Exception>)
    requires u.password.Digest?
    ensures u.phoneNumber == "" ==> r == Err(ValueError(PHONE_REQUIRED_MSG))
    ensures u.phoneNumber != "" ==> r == Ok(checkpw(candidate, u.password.hash))
  {
    if u.phoneNumber == "" then Err(ValueError(PHONE_REQUIRED_MSG))
    else Ok(checkpw(candidate, u.password.hash))
  }
}
