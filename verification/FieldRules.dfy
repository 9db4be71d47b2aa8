/** The field rules shared by the three validators: the regular expressions
    they pass to `String.prototype.match`, the `=== 'US'` country test, and the
    error messages they record. */
module FieldRules {
  import opened Wrappers
  import opened JsObjects

  const FirstNameRequired := "First Name is required"
  const LastNameRequired := "Last Name is required"
  const AddressesRequired := "At least one address is required"
  const StateMessage := "State must be a 2-letter code (ex. NY, CA)"
  const PostalCodeMessage := "Zip/Postal Code must be 5 digits"
  const CountryMessage := "Country must be US"
  const SsnMessage := "SSN must be 9 digits with no dashes"
  const EmailMessage := "Email must be valid"
  const BirthDateMessage := "Date of Birth must be in YYYY-MM-DD format"

  /** The rules the validators check, each with its own message. */
  datatype Rule = FirstName | LastName | Addresses | State | PostalCode | Country | Ssn | Email | BirthDate

  /** The message recorded when `r` fails (the same text in all three validators). */
  function Message(r: Rule): string
  {
    match r
    case FirstName => FirstNameRequired
    case LastName => LastNameRequired
    case Addresses => AddressesRequired
    case State => StateMessage
    case PostalCode => PostalCodeMessage
    case Country => CountryMessage
    case Ssn => SsnMessage
    case Email => EmailMessage
    case BirthDate => BirthDateMessage
  }

  /** What running a validator produces: the error object it built, or the
      TypeError that escaped it (`.match` on an absent member, or an
      assignment through an undefined property). */
  datatype Validation = Errors(errors: JsObject) | Threw

  /** A validator's keys: no two rules share one. */
  predicate KeysDistinct(key: Rule -> string)
  {
    forall r, r' | key(r) == key(r') :: r == r'
  }

  /** The entries a validator records: one for each rule of `rules` that is
      among the `failing` ones, under its key and with its message. */
  function ErrorsFor(key: Rule -> string, failing: set<Rule>, rules: set<Rule>): JsObject
    requires KeysDistinct(key)
  {
    map r | r in rules && r in failing :: key(r) := Message(r)
  }

  /** The error object once the first `n` rules of `order` have been checked
      in turn, each adding its entry if it fails. */
  function ErrorsAfter(key: Rule -> string, failing: set<Rule>, order: seq<Rule>, n: nat): JsObject
    requires n <= |order|
  {
    if n == 0 then map[]
    else
      var errors := ErrorsAfter(key, failing, order, n - 1);
      var r := order[n - 1];
      if r in failing then errors[key(r) := Message(r)] else errors
  }

  lemma ErrorsAfterStep(key: Rule -> string, failing: set<Rule>, order: seq<Rule>, n: nat)
    requires n < |order|
    ensures ErrorsAfter(key, failing, order, n + 1) ==
      if order[n] in failing then ErrorsAfter(key, failing, order, n)[key(order[n]) := Message(order[n])]
      else ErrorsAfter(key, failing, order, n)
  {
  }

  /** The key of a rule is recorded exactly when the rule is checked and
      fails, and then with the rule's message. */
  lemma ErrorsForKeys(key: Rule -> string, failing: set<Rule>, rules: set<Rule>, r: Rule)
    requires KeysDistinct(key)
    ensures key(r) in ErrorsFor(key, failing, rules) <==> r in rules && r in failing
    ensures key(r) in ErrorsFor(key, failing, rules) ==> ErrorsFor(key, failing, rules)[key(r)] == Message(r)
  {
  }

  /** Checking one more rule adds its entry exactly when it fails. */
  lemma ErrorsForNext(key: Rule -> string, failing: set<Rule>, rules: set<Rule>, r: Rule)
    requires KeysDistinct(key)
    ensures ErrorsFor(key, failing, rules + {r}) ==
      if r in failing then ErrorsFor(key, failing, rules)[key(r) := Message(r)]
      else ErrorsFor(key, failing, rules)
  {
  }

  /** Only the failing rules matter: checking more rules that all pass adds nothing. */
  lemma ErrorsForFailingOnly(key: Rule -> string, failing: set<Rule>, rules: set<Rule>, rules': set<Rule>)
    requires KeysDistinct(key)
    requires failing * rules == failing * rules'
    ensures ErrorsFor(key, failing, rules) == ErrorsFor(key, failing, rules')
  {
    assert forall r :: r in rules && r in failing <==> r in rules' && r in failing by {
      forall r ensures r in rules && r in failing <==> r in rules' && r in failing {
        assert r in failing * rules <==> r in failing * rules';
      }
    }
  }

  /** The error object is empty exactly when none of the checked rules fails. */
  lemma ErrorsForEmpty(key: Rule -> string, failing: set<Rule>, rules: set<Rule>)
    requires KeysDistinct(key)
    ensures ErrorsFor(key, failing, rules) == map[] <==> failing * rules == {}
  {
    if failing * rules != {} {
      var r :| r in failing * rules;
      assert key(r) in ErrorsFor(key, failing, rules);
    } else {
      ErrorsForFailingOnly(key, failing, rules, {});
      assert ErrorsFor(key, failing, {}) == map[];
    }
  }

  /** Checking the rules one after another, in whatever order, records
      exactly the failing ones. */
  lemma {:induction false} ErrorsAfterIsFor(key: Rule -> string, failing: set<Rule>, order: seq<Rule>, n: nat)
    requires KeysDistinct(key)
    requires n <= |order|
    ensures ErrorsAfter(key, failing, order, n) == ErrorsFor(key, failing, set r | r in order[..n])
  {
    if n == 0 {
      assert ErrorsFor(key, failing, {}) == map[];
    } else {
      var init, prefix := order[..n - 1], order[..n];
      ErrorsAfterIsFor(key, failing, order, n - 1);
      ErrorsForNext(key, failing, (set r | r in init), order[n - 1]);
      assert prefix == init + [order[n - 1]];
      assert (set r | r in prefix) == (set r | r in init) + {order[n - 1]};
    }
  }

  /** `\d` in a JavaScript regular expression: an ASCII digit only. */
  predicate IsAsciiDigit(c: char)
  {
    '0' <= c <= '9'
  }

  /** `[A-Z]` */
  predicate IsAsciiUpper(c: char)
  {
    'A' <= c <= 'Z'
  }

  /** `\s` in a JavaScript regular expression, listed as section 12.2 and
      section 12.3 of ECMA-262 define it: the WhiteSpace code points (tab, line
      tabulation, form feed, space, no-break space, the byte order mark and the
      other space separators of category Zs) and the LineTerminator code points
      (line feed, carriage return, line and paragraph separators). */
  const JsWhitespace: set<char> := {
    '\t', '\U{000B}', '\U{000C}', ' ', '\U{00A0}', '\U{FEFF}',
    '\U{1680}', '\U{2000}', '\U{2001}', '\U{2002}', '\U{2003}', '\U{2004}', '\U{2005}',
    '\U{2006}', '\U{2007}', '\U{2008}', '\U{2009}', '\U{200A}', '\U{202F}', '\U{205F}', '\U{3000}',
    '\n', '\r', '\U{2028}', '\U{2029}'
  }

  /** `\s`, decided by code point ranges. */
  predicate IsJsWhitespace(c: char)
  {
    var n := c as int;
    || 0x09 <= n <= 0x0D
    || n == 0x20 || n == 0xA0 || n == 0x1680
    || 0x2000 <= n <= 0x200A
    || n == 0x2028 || n == 0x2029 || n == 0x202F || n == 0x205F
    || n == 0x3000 || n == 0xFEFF
  }

  predicate AllDigits(s: string)
  {
    forall i | 0 <= i < |s| :: IsAsciiDigit(s[i])
  }

  /** A character class of the rules' regular expressions: `\d`, `[A-Z]`, or
      one literal character. */
  datatype CharClass = Digit | Upper | Exactly(c: char)

  predicate InClass(cls: CharClass, c: char)
  {
    match cls
    case Digit => '0' <= c <= '9'
    case Upper => 'A' <= c <= 'Z'
    case Exactly(d) => c == d
  }

  /** `cls{count}`: a class repeated a fixed number of times. */
  datatype Piece = Piece(cls: CharClass, count: nat)

  /** The anchored pattern `^p0 p1 ...$` matches `s`: each piece in turn takes
      exactly its count of characters, all in its class, and nothing is left. */
  ghost predicate PatternMatches(p: seq<Piece>, s: string)
    decreases |p|
  {
    if p == [] then s == []
    else
      && p[0].count <= |s|
      && (forall i | 0 <= i < p[0].count :: InClass(p[0].cls, s[i]))
      && PatternMatches(p[1..], s[p[0].count..])
  }

  /** `/^[A-Z]{2}$/` */
  const StatePattern := [Piece(Upper, 2)]
  /** `/^\d{5}$/` */
  const PostalCodePattern := [Piece(Digit, 5)]
  /** `/^\d{9}$/` */
  const SsnPattern := [Piece(Digit, 9)]
  /** `/^\d{4}-\d{2}-\d{2}$/` */
  const BirthDatePattern := [Piece(Digit, 4), Piece(Exactly('-'), 1), Piece(Digit, 2), Piece(Exactly('-'), 1), Piece(Digit, 2)]
  /** The string 'US' read as the pattern `/^US$/`. */
  const CountryPattern := [Piece(Exactly('U'), 1), Piece(Exactly('S'), 1)]

  /** The state rule: two upper-case ASCII letters. */
  predicate StateMatches(s: string)
  {
    |s| == 2 && IsAsciiUpper(s[0]) && IsAsciiUpper(s[1])
  }

  /** The postal code rule: five ASCII digits. */
  predicate PostalCodeMatches(s: string)
  {
    |s| == 5 && AllDigits(s)
  }

  /** The SSN rule: nine ASCII digits, so no dashes. */
  predicate SsnMatches(s: string)
  {
    |s| == 9 && AllDigits(s)
  }

  /** The date rule: the shape of a date only, with no calendar check. */
  predicate BirthDateMatches(s: string)
  {
    && |s| == 10
    && AllDigits(s[..4]) && s[4] == '-'
    && AllDigits(s[5..7]) && s[7] == '-'
    && AllDigits(s[8..])
  }

  /** `v !== 'US'` fails for `undefined` and for every string but 'US'. */
  predicate CountryMatches(v: Option<string>)
  {
    v == Some("US")
  }


  /** `[^\s@]`: a character allowed in each run of the e-mail pattern. */
  predicate IsEmailRunChar(c: char)
  {
    c != '@' && !IsJsWhitespace(c)
  }

  /** `[^\s@]+` */
  predicate IsEmailRun(s: string)
  {
    |s| > 0 && forall i | 0 <= i < |s| :: IsEmailRunChar(s[i])
  }

  /** `/^[^\s@]+@[^\s@]+\.[^\s@]+$/` read literally: the string splits into a
      run, '@', a run, '.', a run (the regular expression backtracks, so any
      split that works is a match). */
  ghost predicate EmailPatternMatches(s: string)
  {
    exists at, dot | 0 <= at < dot < |s| ::
      && s[at] == '@' && s[dot] == '.'
      && IsEmailRun(s[..at]) && IsEmailRun(s[at + 1..dot]) && IsEmailRun(s[dot + 1..])
  }

  /** Number of occurrences of `c` in `s`. */
  function CountOf(s: string, c: char): nat
  {
    if s == [] then 0 else (if s[0] == c then 1 else 0) + CountOf(s[1..], c)
  }

  /** The part after the '@' holds a '.' that is neither its first nor its last character. */
  predicate HasInnerDot(domain: string)
  {
    exists i | 0 < i < |domain| - 1 :: domain[i] == '.'
  }

  /** The e-mail rule as a checklist: no whitespace, exactly one '@', a
      non-empty local part before it, and an inner '.' in the domain after it. */
  predicate EmailMatches(s: string)
  {
    && (forall i | 0 <= i < |s| :: !IsJsWhitespace(s[i]))
    && CountOf(s, '@') == 1
    && var at := IndexOf(s, '@');
       0 < at < |s| && HasInnerDot(s[at + 1..])
  }

  lemma {:induction false} CountOfAppend(a: string, b: string, c: char)
    ensures CountOf(a + b, c) == CountOf(a, c) + CountOf(b, c)
  {
    if a == [] {
      assert a + b == b;
    } else {
      assert (a + b)[1..] == a[1..] + b;
      CountOfAppend(a[1..], b, c);
    }
  }

  lemma {:induction false} CountOfZero(s: string, c: char)
    ensures CountOf(s, c) == 0 <==> forall j | 0 <= j < |s| :: s[j] != c
  {
    if s != [] {
      CountOfZero(s[1..], c);
      if CountOf(s, c) == 0 {
        forall j | 0 <= j < |s| ensures s[j] != c {
          if j > 0 { assert s[j] == s[1..][j - 1]; }
        }
      }
    }
  }

  /** Every string the checklist accepts matches the regular expression. */
  lemma EmailMatchesImpliesPattern(s: string)
    requires EmailMatches(s)
    ensures EmailPatternMatches(s)
  {
    var at := IndexOf(s, '@');
    var left, domain := s[..at], s[at + 1..];
    var i :| 0 < i < |domain| - 1 && domain[i] == '.';
    var dot := at + 1 + i;
    assert s == left + [s[at]] + domain;
    CountOfAppend(left + [s[at]], domain, '@');
    CountOfAppend(left, [s[at]], '@');
    CountOfZero(domain, '@');
    var mid, right := s[at + 1..dot], s[dot + 1..];
    assert IsEmailRun(left) by {
      forall j | 0 <= j < at ensures IsEmailRunChar(left[j]) {
        assert left[j] == s[j];
      }
    }
    assert IsEmailRun(mid) by {
      forall j | 0 <= j < |mid| ensures IsEmailRunChar(mid[j]) {
        assert mid[j] == domain[j] == s[at + 1 + j];
      }
    }
    assert IsEmailRun(right) by {
      forall j | 0 <= j < |right| ensures IsEmailRunChar(right[j]) {
        assert right[j] == domain[i + 1 + j] == s[dot + 1 + j];
      }
    }
    assert s[dot] == domain[i];
  }

  /** The three runs of a split and its '@' and '.' are free of whitespace. */
  lemma SplitHasNoWhitespace(s: string, at: nat, dot: nat)
    requires at < dot < |s| && s[at] == '@' && s[dot] == '.'
    requires IsEmailRun(s[..at]) && IsEmailRun(s[at + 1..dot]) && IsEmailRun(s[dot + 1..])
    ensures forall j | 0 <= j < |s| :: !IsJsWhitespace(s[j])
  {
    var left, mid, right := s[..at], s[at + 1..dot], s[dot + 1..];
    forall j | 0 <= j < |s| ensures !IsJsWhitespace(s[j]) {
      if j < at { assert s[j] == left[j]; }
      else if at < j < dot { assert s[j] == mid[j - at - 1]; }
      else if dot < j { assert s[j] == right[j - dot - 1]; }
    }
  }

  /** A split has its '@' as the only one. */
  lemma SplitHasOneAt(s: string, at: nat, dot: nat)
    requires at < dot < |s| && s[at] == '@' && s[dot] == '.'
    requires IsEmailRun(s[..at]) && IsEmailRun(s[at + 1..dot]) && IsEmailRun(s[dot + 1..])
    ensures CountOf(s, '@') == 1
  {
    var left, mid, right := s[..at], s[at + 1..dot], s[dot + 1..];
    var domain := s[at + 1..];
    assert domain == mid + [s[dot]] + right;
    assert s == left + [s[at]] + domain;
    CountOfZero(left, '@');
    CountOfZero(mid, '@');
    CountOfZero(right, '@');
    CountOfAppend(left + [s[at]], domain, '@');
    CountOfAppend(left, [s[at]], '@');
    CountOfAppend(mid + [s[dot]], right, '@');
    CountOfAppend(mid, [s[dot]], '@');
  }

  /** Every string matching the regular expression passes the checklist. */
  lemma PatternImpliesEmailMatches(s: string)
    requires EmailPatternMatches(s)
    ensures EmailMatches(s)
  {
    var at, dot :| 0 <= at < dot < |s| && s[at] == '@' && s[dot] == '.'
      && IsEmailRun(s[..at]) && IsEmailRun(s[at + 1..dot]) && IsEmailRun(s[dot + 1..]);
    SplitHasNoWhitespace(s, at, dot);
    SplitHasOneAt(s, at, dot);
    SplitLocatesAt(s, at, dot);
  }

  /** In a split, the first '@' is the split's one, and a '.' sits inside the domain. */
  lemma SplitLocatesAt(s: string, at: nat, dot: nat)
    requires at < dot < |s| && s[at] == '@' && s[dot] == '.'
    requires IsEmailRun(s[..at]) && IsEmailRun(s[at + 1..dot]) && IsEmailRun(s[dot + 1..])
    ensures IndexOf(s, '@') == at
    ensures HasInnerDot(s[at + 1..])
  {
    var left := s[..at];
    forall j | 0 <= j < at ensures s[j] != '@' {
      assert s[j] == left[j];
    }
    var domain := s[at + 1..];
    assert domain[dot - at - 1] == '.';
  }

  /** The checklist and the regular expression accept exactly the same strings. */
  lemma EmailMatchesIffPattern(s: string)
    ensures EmailMatches(s) <==> EmailPatternMatches(s)
  {
    if EmailMatches(s) {
      EmailMatchesImpliesPattern(s);
    }
    if EmailPatternMatches(s) {
      PatternImpliesEmailMatches(s);
    }
  }

  /** The code-point ranges of `IsJsWhitespace` are exactly the listed code points. */
  lemma IsJsWhitespaceIffListed(c: char)
    ensures IsJsWhitespace(c) <==> c in JsWhitespace
  {
  }

  /** Each regex rule holds exactly when its anchored pattern matches. */
  lemma StateMatchesIffPattern(s: string)
    ensures StateMatches(s) <==> PatternMatches(StatePattern, s)
  {
  }

  lemma PostalCodeMatchesIffPattern(s: string)
    ensures PostalCodeMatches(s) <==> PatternMatches(PostalCodePattern, s)
  {
  }

  lemma SsnMatchesIffPattern(s: string)
    ensures SsnMatches(s) <==> PatternMatches(SsnPattern, s)
  {
  }

  lemma BirthDateMatchesIffPattern(s: string)
    ensures BirthDateMatches(s) <==> PatternMatches(BirthDatePattern, s)
  {
    var p := BirthDatePattern;
    if PatternMatches(p, s) {
      PatternLength(p, s);
    }
    if |s| == 10 {
      assert s[4..][1..] == s[5..] && s[5..][2..] == s[7..] && s[7..][1..] == s[8..] && s[8..][2..] == [];
      assert PatternMatches(p[4..], s[8..]) <==> AllDigits(s[8..]);
      assert PatternMatches(p[3..], s[7..]) <==> s[7] == '-' && AllDigits(s[8..]);
      assert PatternMatches(p[2..], s[5..]) <==> AllDigits(s[5..7]) && s[7] == '-' && AllDigits(s[8..]);
      assert PatternMatches(p[1..], s[4..]) <==> s[4] == '-' && AllDigits(s[5..7]) && s[7] == '-' && AllDigits(s[8..]);
    }
  }

  /** The number of characters a pattern takes. */
  function TotalCount(p: seq<Piece>): nat
  {
    if p == [] then 0 else p[0].count + TotalCount(p[1..])
  }

  /** A pattern of fixed repetitions only matches strings of its total length. */
  lemma {:induction false} PatternLength(p: seq<Piece>, s: string)
    requires PatternMatches(p, s)
    ensures |s| == TotalCount(p)
  {
    if p != [] {
      PatternLength(p[1..], s[p[0].count..]);
    }
  }

  /** The strict comparison with 'US' passes exactly the strings `/^US$/`
      matches, and never `undefined`. */
  lemma CountryMatchesIffPattern(v: Option<string>)
    ensures CountryMatches(v) <==> v.Some? && PatternMatches(CountryPattern, v.value)
  {
    if v.Some? {
      var s := v.value;
      assert PatternMatches(CountryPattern, s) <==>
        1 <= |s| && s[0] == 'U' && PatternMatches(CountryPattern[1..], s[1..]);
      assert |s| >= 1 ==> (PatternMatches(CountryPattern[1..], s[1..]) <==> |s| == 2 && s[1] == 'S');
      assert s == "US" <==> |s| == 2 && s[0] == 'U' && s[1] == 'S';
    }
  }

  /** The examples the state rule is documented with, and near misses. */
  lemma StateExamples()
    ensures StateMatches("NY") && !StateMatches("ny") && !StateMatches("N1") && !StateMatches("New York")
  {
    assert !IsAsciiUpper('y');
  }

  /** The SSN rule takes nine digits and no dashes. */
  lemma SsnExamples()
    ensures SsnMatches("123456789") && !SsnMatches("123-45-6789") && !SsnMatches("12345678")
    ensures !SsnMatches("1234567890")
  {
    assert !IsAsciiDigit("123-45-6789"[3]);
  }

  lemma PostalCodeExamples()
    ensures PostalCodeMatches("10001") && !PostalCodeMatches("1000a")
  {
    assert !IsAsciiDigit("1000a"[4]);
  }

  /** The date rule checks the shape only: a month 13 passes. */
  lemma BirthDateExamples()
    ensures BirthDateMatches("1990-01-31") && BirthDateMatches("2023-13-45") && !BirthDateMatches("1990/01/31")
  {
    assert "1990/01/31"[4] != '-';
    var d, d' := "1990-01-31", "2023-13-45";
    assert AllDigits(d[..4]) && AllDigits(d[5..7]) && AllDigits(d[8..]);
    assert AllDigits(d'[..4]) && AllDigits(d'[5..7]) && AllDigits(d'[8..]);
  }

  lemma CountryExamples()
    ensures !CountryMatches(Some("CA")) && !CountryMatches(None) && CountryMatches(Some("US"))
  {
  }
}
