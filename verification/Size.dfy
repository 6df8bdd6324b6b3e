/** Volume sizes: from the human grammar to whole MiB, in Go's 64-bit arithmetic. */
module Size {
  import opened Wrappers
  import opened Text
  import I = Identifiers

  datatype SizeError = NoNumber | NumberTooLarge | UnsupportedUnit(unit: string)

  const MAX_INT := 0x7FFF_FFFF_FFFF_FFFF
  const TWO_64 := 0x1_0000_0000_0000_0000

  /** What a 64-bit signed integer holds of n. */
  function Wrap(n: int): int {
    (n + MAX_INT + 1) % TWO_64 - MAX_INT - 1
  }

  function LowerChar(c: char): char {
    if 'A' <= c <= 'Z' then (c as int + 32) as char else c
  }

  /** strings.ToLower on ASCII text. */
  function ToLower(s: string): (r: string)
    ensures |r| == |s|
    ensures forall i | 0 <= i < |s| :: r[i] == LowerChar(s[i])
  {
    if s == "" then "" else [LowerChar(s[0])] + ToLower(s[1..])
  }

  /** A unit's multiple of a MiB; the unit is in lower case. */
  function UnitMiB(unit: string): Option<nat> {
    if unit == "" || unit == "m" || unit == "mb" || unit == "mib" then Some(1)
    else if unit == "g" || unit == "gb" || unit == "gib" then Some(1024)
    else if unit == "t" || unit == "tb" || unit == "tib" then Some(1024 * 1024)
    else None
  }

  /** The length of the leading run of digits. */
  function DigitsLength(s: string): (n: nat)
    ensures n <= |s| && AllDigits(s[..n])
    ensures n < |s| ==> !IsDigit(s[n])
  {
    if s == "" || !IsDigit(s[0]) then 0
    else
      var n := 1 + DigitsLength(s[1..]);
      assert forall i | 1 <= i < n :: s[i] == s[1..][i - 1];
      n
  }

  function Parse(s: string): Result<int, SizeError> {
    var n := DigitsLength(s);
    var unit := UnitMiB(ToLower(s[n..]));
    if n == 0 then Failure(NoNumber)
    else if Value(s[..n]) > MAX_INT then Failure(NumberTooLarge)
    else if unit == None then Failure(UnsupportedUnit(s[n..]))
    else Success(Wrap(Value(s[..n]) * unit.value))
  }

  method ParseSizeMiB(s: string) returns (r: Result<int, SizeError>)
    ensures r == Parse(s)
  {
    var i := 0;
    while i < |s| && '0' <= s[i] <= '9'
      invariant 0 <= i <= |s| && AllDigits(s[..i])
    {
      i := i + 1;
    }
    LongestRun(s, i);
    if i == 0 {
      return Failure(NoNumber);
    }
    var n := Value(s[..i]);
    if n > MAX_INT {
      return Failure(NumberTooLarge);
    }
    var mult := UnitMiB(ToLower(s[i..]));
    if mult == None {
      return Failure(UnsupportedUnit(s[i..]));
    }
    r := Success(Wrap(n * mult.value));
  }

  lemma {:induction false} LongestRun(s: string, n: nat)
    requires n <= |s| && AllDigits(s[..n]) && (n < |s| ==> !IsDigit(s[n]))
    ensures DigitsLength(s) == n
  {
    if n > 0 {
      assert s[0] == s[..n][0];
      assert s[1..][..n - 1] == s[..n][1..];
      LongestRun(s[1..], n - 1);
    }
  }

  /** The number of MiB a size denotes, in unbounded arithmetic. */
  function Denotes(s: string): Option<nat> {
    var n := DigitsLength(s);
    var unit := UnitMiB(ToLower(s[n..]));
    if n == 0 || unit == None then None else Some(Value(s[..n]) * unit.value)
  }

  /** Sizes are a decimal number times a unit: written out, for any digits and any letters. */
  lemma DenotesNumberTimesUnit(digits: string, unit: string)
    requires digits != "" && AllDigits(digits)
    requires unit != "" ==> !IsDigit(unit[0])
    ensures Denotes(digits + unit)
            == match UnitMiB(ToLower(unit)) case None => None case Some(m) => Some(Value(digits) * m)
  {
    var s := digits + unit;
    assert s[..|digits|] == digits && s[|digits|..] == unit;
    LongestRun(s, |digits|);
  }

  /** Is s the lower-case word, each letter in either case? */
  predicate Spells(s: string, word: string) {
    |s| == |word| && forall i | 0 <= i < |s| :: s[i] == word[i] || s[i] as int + 32 == word[i] as int
  }

  predicate IsLower(word: string) {
    forall i | 0 <= i < |word| :: 'a' <= word[i] <= 'z'
  }

  lemma LowersToExactly(s: string, word: string)
    requires IsLower(word)
    ensures ToLower(s) == word <==> Spells(s, word)
  {
    if ToLower(s) == word {
      forall i | 0 <= i < |s| ensures s[i] == word[i] || s[i] as int + 32 == word[i] as int {
        assert word[i] == LowerChar(s[i]);
      }
    }
    if Spells(s, word) {
      forall i | 0 <= i < |s| ensures ToLower(s)[i] == word[i] {
        assert 'a' <= word[i] <= 'z';
      }
    }
  }

  /** The spellings, in any case, of one, of 1024 and of 1024 * 1024 MiB. */
  predicate MebiUnit(s: string) {
    s == "" || Spells(s, "m") || Spells(s, "mb") || Spells(s, "mib")
  }

  predicate GibiUnit(s: string) {
    Spells(s, "g") || Spells(s, "gb") || Spells(s, "gib")
  }

  predicate TebiUnit(s: string) {
    Spells(s, "t") || Spells(s, "tb") || Spells(s, "tib")
  }

  /** What a number of MiB, as written, is a multiple of. */
  function Spelled(unit: string): Option<nat> {
    if MebiUnit(unit) then Some(1)
    else if GibiUnit(unit) then Some(1024)
    else if TebiUnit(unit) then Some(1048576)
    else None
  }

  lemma UnitsAreSpelt(s: string)
    ensures UnitMiB(ToLower(s)) == Spelled(s)
  {
    LowersToExactly(s, "m");
    LowersToExactly(s, "mb");
    LowersToExactly(s, "mib");
    LowersToExactly(s, "g");
    LowersToExactly(s, "gb");
    LowersToExactly(s, "gib");
    LowersToExactly(s, "t");
    LowersToExactly(s, "tb");
    LowersToExactly(s, "tib");
  }

  /** Every spelling of every unit: what a number written with it denotes, or that it denotes nothing. */
  lemma EverySpelling(digits: string, unit: string)
    requires digits != "" && AllDigits(digits)
    requires unit != "" ==> !IsDigit(unit[0])
    ensures Denotes(digits + unit) == if MebiUnit(unit) then Some(Value(digits))
                                      else if GibiUnit(unit) then Some(Value(digits) * 1024)
                                      else if TebiUnit(unit) then Some(Value(digits) * 1048576)
                                      else None
  {
    DenotesNumberTimesUnit(digits, unit);
    UnitsAreSpelt(unit);
  }

  /** Wrapping keeps a number up to multiples of 2^64, within the signed 64-bit range. */
  lemma WrapIsTwosComplement(n: int)
    ensures -0x8000_0000_0000_0000 <= Wrap(n) < 0x8000_0000_0000_0000
    ensures exists k: int :: Wrap(n) == n + k * 0x1_0000_0000_0000_0000
  {
    var q := (n + MAX_INT + 1) / TWO_64;
    assert Wrap(n) == n + (-q) * 0x1_0000_0000_0000_0000;
  }

  /** Every text is digits and what follows them: what is wrong with it, in the order looked for, or its size. */
  lemma ParseSaysWhy(digits: string, unit: string)
    requires AllDigits(digits) && (unit != "" ==> !IsDigit(unit[0]))
    ensures Parse(digits + unit)
            == if digits == "" then Failure(NoNumber)
               else if Value(digits) >= 0x8000_0000_0000_0000 then Failure(NumberTooLarge)
               else match Spelled(unit)
                    case None => Failure(UnsupportedUnit(unit))
                    case Some(m) => Success(Wrap(Value(digits) * m))
  {
    var s := digits + unit;
    assert s[..|digits|] == digits && s[|digits|..] == unit;
    LongestRun(s, |digits|);
    UnitsAreSpelt(unit);
  }

  lemma WrapIsExactWithin(n: nat)
    ensures Wrap(n) == n <==> n <= MAX_INT
  {
  }

  lemma UnitsAreAtLeastOne(unit: string)
    ensures UnitMiB(unit).Some? ==> UnitMiB(unit).value >= 1
  {
  }

  /** An accepted size parses to what it denotes exactly when that fits in 63 bits. */
  lemma ParseIsExactWithin(s: string)
    requires Parse(s).Success?
    ensures Denotes(s).Some?
    ensures Parse(s).value == Denotes(s).value <==> Denotes(s).value <= MAX_INT
  {
    WrapIsExactWithin(Denotes(s).value);
  }

  /** What fits is always accepted. */
  lemma ParseAcceptsWhatFits(s: string)
    requires Denotes(s).Some? && Denotes(s).value <= MAX_INT
    ensures Parse(s) == Success(Denotes(s).value)
  {
    var n := DigitsLength(s);
    UnitsAreAtLeastOne(ToLower(s[n..]));
    var number, unit := Value(s[..n]), UnitMiB(ToLower(s[n..])).value;
    assert number <= number * unit;
    WrapIsExactWithin(Denotes(s).value);
  }

  /** Two sizes within range compare equal if and only if they denote the same number of MiB. */
  lemma SameSizeExactly(s: string, t: string)
    requires Denotes(s).Some? && Denotes(s).value <= MAX_INT
    requires Denotes(t).Some? && Denotes(t).value <= MAX_INT
    ensures Parse(s) == Parse(t) <==> Denotes(s) == Denotes(t)
  {
    ParseAcceptsWhatFits(s);
    ParseAcceptsWhatFits(t);
  }

  lemma UnitOf(c: char)
    requires c == 'G' || c == 'M'
    ensures UnitMiB(ToLower([c])) == Some(if c == 'G' then 1024 else 1)
  {
    assert ToLower([c]) == [LowerChar(c)];
  }

  lemma SameProduct(d: string, u: string, m: nat, d': string, u': string, m': nat)
    requires d != "" && AllDigits(d) && d' != "" && AllDigits(d')
    requires u != "" && !IsDigit(u[0]) && u' != "" && !IsDigit(u'[0])
    requires UnitMiB(ToLower(u)) == Some(m) && UnitMiB(ToLower(u')) == Some(m')
    requires Value(d) * m == Value(d') * m'
    ensures Denotes(d + u) == Denotes(d' + u')
  {
    DenotesNumberTimesUnit(d, u);
    DenotesNumberTimesUnit(d', u');
  }

  /** nG is (1024*n)M. */
  lemma GigabytesAreMegabytes(digits: string)
    requires digits != "" && AllDigits(digits)
    ensures Denotes(digits + "G") == Denotes(Decimal(1024 * Value(digits)) + "M")
    ensures 1024 * Value(digits) <= MAX_INT ==> Parse(digits + "G") == Parse(Decimal(1024 * Value(digits)) + "M")
  {
    var m := 1024 * Value(digits);
    var g: string, mega: string := ['G'], ['M'];
    DecimalRoundTrip(m);
    UnitOf(g[0]);
    UnitOf(mega[0]);
    SameProduct(digits, g, 1024, Decimal(m), mega, 1);
    DenotesNumberTimesUnit(digits, g);
    if m <= MAX_INT {
      ParseAcceptsWhatFits(digits + g);
      ParseAcceptsWhatFits(Decimal(m) + mega);
    }
  }

  lemma {:induction false} LeadingZeros(digits: string)
    requires AllDigits(digits)
    ensures Value("0" + digits) == Value(digits)
  {
    var s := "0" + digits;
    if digits == "" {
      assert s[..|s| - 1] == "";
    } else {
      assert s[..|s| - 1] == "0" + digits[..|digits| - 1];
      LeadingZeros(digits[..|digits| - 1]);
    }
  }

  lemma LowerTwice(unit: string)
    ensures ToLower(ToLower(unit)) == ToLower(unit)
  {
  }

  /** Leading zeros do not change what a size denotes. */
  lemma LeadingZerosDoNotMatter(digits: string, unit: string)
    requires digits != "" && AllDigits(digits)
    requires unit != "" ==> I.Letter(unit[0])
    ensures Denotes("0" + digits + unit) == Denotes(digits + unit)
  {
    LeadingZeros(digits);
    DenotesNumberTimesUnit(digits, unit);
    DenotesNumberTimesUnit("0" + digits, unit);
  }

  /** Nor does the case of its unit. */
  lemma LetterCaseDoesNotMatter(digits: string, unit: string)
    requires digits != "" && AllDigits(digits)
    requires unit != "" ==> I.Letter(unit[0])
    ensures Denotes(digits + ToLower(unit)) == Denotes(digits + unit)
  {
    DenotesNumberTimesUnit(digits, unit);
    DenotesNumberTimesUnit(digits, ToLower(unit));
    LowerTwice(unit);
  }

  lemma ParseMultiplies(digits: string, unit: string, m: nat)
    requires digits != "" && AllDigits(digits) && Value(digits) <= MAX_INT
    requires unit != "" && !IsDigit(unit[0]) && UnitMiB(ToLower(unit)) == Some(m)
    ensures Parse(digits + unit) == Success(Wrap(Value(digits) * m))
  {
    var s := digits + unit;
    assert s[..|digits|] == digits && s[|digits|..] == unit;
    LongestRun(s, |digits|);
  }

  lemma GigabytesWrap(n: nat)
    requires n <= MAX_INT
    ensures Parse(Decimal(n) + "G") == Success(Wrap(1024 * n))
  {
    var g: string := ['G'];
    DecimalRoundTrip(n);
    UnitOf(g[0]);
    ParseMultiplies(Decimal(n), g, 1024);
  }

  /** Beyond 63 bits the product wraps without an error: 2^53 GiB is read as a negative size. */
  lemma OverflowIsSilent(n: nat)
    requires 1024 * n == MAX_INT + 1
    ensures I.ValidSize(Decimal(n) + "G")
    ensures Parse(Decimal(n) + "G") == Success(-MAX_INT - 1)
  {
    var digits := Decimal(n);
    assert I.DigitsThenLetters(digits + "G", |digits|);
    GigabytesWrap(n);
  }
}
