/** Lenient conversions and string truncation from `src/bot/core/utils.py`.
    Python values reaching these helpers are `None`, `bool`, `int` or `str`. */
module Utils {
  import opened Wrappers
  import opened Text

  datatype PyValue = PyNone | PyBool(b: bool) | PyInt(i: int) | PyStr(s: string)

  // ---------------------------------------------------------------------------
  // Decimal integers as Python's `int(str)` reads them and `str(int)` writes them

  predicate IsDigit(c: char) {
    '0' <= c <= '9'
  }

  function DigitValue(c: char): nat
    requires IsDigit(c)
  {
    c as int - '0' as int
  }

  function DigitChar(d: nat): (c: char)
    requires d < 10
    ensures IsDigit(c) && DigitValue(c) == d
  {
    ('0' as int + d) as char
  }

  /** A run of ASCII digits in which single underscores may separate digits
      (PEP 515): `1_000` is well formed, `_1`, `1_` and `1__0` are not. */
  predicate DigitsOrUnderscores(s: string) {
    forall k :: 0 <= k < |s| ==> IsDigit(s[k]) || s[k] == '_'
  }

  predicate DigitRun(s: string) {
    && |s| > 0
    && DigitsOrUnderscores(s)
    && IsDigit(s[0])
    && forall k :: 0 <= k < |s| ==>
         IsDigit(s[k]) || (s[k] == '_' && 0 < k < |s| - 1 && IsDigit(s[k + 1]))
  }

  /** The number a digit run denotes; underscores carry no value. */
  function RunValue(s: string): nat
    requires DigitsOrUnderscores(s)
    decreases |s|
  {
    if |s| == 0 then 0
    else if s[|s| - 1] == '_' then RunValue(s[..|s| - 1])
    else 10 * RunValue(s[..|s| - 1]) + DigitValue(s[|s| - 1])
  }

  /** The number of digits in a run; underscores are not counted. */
  function DigitCount(s: string): nat
    decreases |s|
  {
    if |s| == 0 then 0 else DigitCount(s[..|s| - 1]) + if IsDigit(s[|s| - 1]) then 1 else 0
  }

  /** CPython's default limit on decimal conversions
      (`sys.int_info.default_max_str_digits`): `int()` raises `ValueError` on a
      literal of more digits, and `str()` on an integer that needs more. */
  const MaxStrDigits: nat := 4300

  /** The whitespace `int()` skips around a literal. Non-ASCII whitespace is
      first mapped to a space, but the ASCII separators U+001C to U+001F, which
      `str.isspace` accepts, are not skipped. */
  predicate IntSpace(c: char) {
    IsSpace(c) && !('\U{1C}' <= c <= '\U{1F}')
  }

  /** Drops the leading whitespace `int()` skips. */
  function IntTrimStart(s: string): (r: string)
    ensures |r| <= |s|
    ensures AllSpace(s) ==> AllSpace(r)
    decreases |s|
  {
    if |s| > 0 && IntSpace(s[0]) then IntTrimStart(s[1..]) else s
  }

  /** Drops the trailing whitespace `int()` skips. */
  function IntTrimEnd(s: string): (r: string)
    ensures |r| <= |s| && r == s[..|r|]
    ensures AllSpace(s) ==> AllSpace(r)
    ensures |s| > 0 && !IntSpace(s[0]) ==> |r| > 0
    decreases |s|
  {
    if |s| > 0 && IntSpace(s[|s| - 1]) then
      var r := IntTrimEnd(s[..|s| - 1]);
      assert s[..|s| - 1][..|r|] == s[..|r|];
      r
    else s
  }

  /** `int(text)` for a base-10 string: surrounding whitespace, an optional sign,
      then a digit run of at most `MaxStrDigits` digits; anything else raises
      `ValueError`, modelled as `None`. */
  function ParseInt(text: string): Option<int> {
    var t := IntTrimEnd(IntTrimStart(text));
    if |t| == 0 then None
    else
      var negative := t[0] == '-';
      var body := if t[0] == '-' || t[0] == '+' then t[1..] else t;
      if DigitRun(body) && DigitCount(body) <= MaxStrDigits then
        var n: int := RunValue(body);
        Some(if negative then -n else n)
      else None
  }

  /** `str(n)` for a natural number. */
  function ShowNat(n: nat): (s: string)
    ensures DigitRun(s)
    ensures forall k :: 0 <= k < |s| ==> IsDigit(s[k])
    decreases n
  {
    if n < 10 then [DigitChar(n)] else ShowNat(n / 10) + [DigitChar(n % 10)]
  }

  /** `str(i)` for any integer, ignoring the digit limit (see `SafeStr`). */
  function ShowInt(i: int): string {
    if i < 0 then "-" + ShowNat(-i) else ShowNat(i)
  }

  /** The number of decimal digits of `i`, without the sign. */
  function IntDigits(i: int): nat {
    |ShowNat(if i < 0 then -i else i)|
  }

  lemma {:induction false} DigitCountOfDigits(s: string)
    requires forall k :: 0 <= k < |s| ==> IsDigit(s[k])
    ensures DigitCount(s) == |s|
    decreases |s|
  {
    if |s| > 0 {
      DigitCountOfDigits(s[..|s| - 1]);
    }
  }

  lemma {:induction false} ShowNatValue(n: nat)
    ensures RunValue(ShowNat(n)) == n
    decreases n
  {
    if n >= 10 {
      var s := ShowNat(n);
      assert s[..|s| - 1] == ShowNat(n / 10);
      ShowNatValue(n / 10);
    }
  }

  /** `int(str(i)) == i`: the decimal rendering reads back as the same number,
      as long as it is within the digit limit; beyond it `int()` raises. */
  lemma ParseShowInt(i: int)
    ensures ParseInt(ShowInt(i)) == if IntDigits(i) <= MaxStrDigits then Some(i) else None
  {
    var s := ShowInt(i);
    var digits := ShowNat(if i < 0 then -i else i);
    ShowNatValue(if i < 0 then -i else i);
    DigitCountOfDigits(digits);
    assert !IntSpace(s[0]);
    assert IntTrimStart(s) == s;
    assert !IntSpace(s[|s| - 1]);
    assert IntTrimEnd(s) == s;
    if i < 0 {
      assert s[1..] == digits;
    }
  }

  // ---------------------------------------------------------------------------
  // safe_int, safe_str, safe_bool

  /** `safe_int`: `None` for `None` and for blank strings, the parsed integer
      otherwise, `None` when `int()` raises. */
  function SafeInt(v: PyValue): (r: Option<int>)
    ensures v.PyNone? ==> r == None
    ensures v.PyStr? && AllSpace(v.s) ==> r == None
    ensures v.PyInt? ==> r == Some(v.i)
    ensures v.PyBool? ==> r == Some(if v.b then 1 else 0)
    ensures v.PyStr? ==> r == ParseInt(v.s)
  {
    match v
    case PyNone => None
    case PyBool(b) => Some(if b then 1 else 0)
    case PyInt(i) => Some(i)
    case PyStr(s) => if Strip(s) == "" then BlankNotInt(s); None else ParseInt(s)
  }

  /** Text that `strip` empties is no integer literal: `int()` raises on it. */
  lemma BlankNotInt(s: string)
    requires Strip(s) == ""
    ensures ParseInt(s) == None
  {
    var t := TrimStart(s);
    assert s == s[..|s| - |t|] + t;
    assert t == t[..0] + t[0..];
  }

  /** `safe_int` tests blankness with `strip`, but `int()` skips less
      whitespace: text that starts with one of the ASCII separators U+001C to
      U+001F makes `int()` raise, so `safe_int("\x1c5")` is `None`. */
  lemma SafeIntRejectsLeadingSeparator(s: string)
    requires |s| > 0 && '\U{1C}' <= s[0] <= '\U{1F}'
    ensures SafeInt(PyStr(s)) == None
  {
    assert IntTrimStart(s) == s;
    var t := IntTrimEnd(s);
    assert t[0] == s[0];
  }

  /** Python's `str(v)` for the modelled values. */
  function PyStrOf(v: PyValue): string {
    match v
    case PyNone => "None"
    case PyBool(b) => if b then "True" else "False"
    case PyInt(i) => ShowInt(i)
    case PyStr(s) => s
  }

  /** The rendering of a boolean or an integer has no whitespace to strip. */
  lemma ShownClean(v: PyValue)
    requires v.PyBool? || v.PyInt?
    ensures Strip(PyStrOf(v)) == PyStrOf(v)
  {
    var s := PyStrOf(v);
    if v.PyBool? {
      assert s[0] == if v.b then 'T' else 'F';
      assert s[|s| - 1] == 'e';
    }
    assert !IsSpace(s[0]) && !IsSpace(s[|s| - 1]);
    StripOfStripped(s);
  }

  /** `safe_str`: `None` for `None` and for an integer whose `str()` raises
      past the digit limit, otherwise `str(v).strip()`. */
  function SafeStr(v: PyValue): (r: Option<string>)
    ensures r.None? <==> v.PyNone? || (v.PyInt? && IntDigits(v.i) > MaxStrDigits)
    ensures r.Some? ==> r.value == [] || (!IsSpace(r.value[0]) && !IsSpace(r.value[|r.value| - 1]))
    ensures v.PyStr? ==> r == Some(Strip(v.s))
    ensures v.PyBool? ==> r == Some(if v.b then "True" else "False")
    ensures v.PyInt? && IntDigits(v.i) <= MaxStrDigits ==> r == Some(ShowInt(v.i))
  {
    if v.PyNone? then None
    else if v.PyInt? && IntDigits(v.i) > MaxStrDigits then None
    else
      if !v.PyStr? then ShownClean(v); Some(Strip(PyStrOf(v)))
      else Some(Strip(PyStrOf(v)))
  }

  /** Feeding `safe_str`'s output back to it changes nothing. */
  lemma SafeStrIdempotent(v: PyValue)
    requires v.PyStr?
    ensures SafeStr(PyStr(SafeStr(v).value)) == SafeStr(v)
  {
    StripIdempotent(v.s);
  }

  /** `safe_int(safe_str(n)) == n`: an integer within the digit limit survives
      rendering and parsing. */
  lemma SafeIntOfSafeStr(i: int)
    requires IntDigits(i) <= MaxStrDigits
    ensures SafeInt(PyStr(SafeStr(PyInt(i)).value)) == Some(i)
  {
    var s := ShowInt(i);
    assert !IsSpace(s[0]) && !IsSpace(s[|s| - 1]);
    StripOfStripped(s);
    ParseShowInt(i);
  }

  predicate TrueWord(s: string) {
    s == "true" || s == "1" || s == "yes" || s == "on"
  }

  predicate FalseWord(s: string) {
    s == "false" || s == "0" || s == "no" || s == "off"
  }

  /** No word is on both lists. */
  lemma WordListsDisjoint(w: string)
    ensures FalseWord(w) ==> !TrueWord(w)
  {
    if w == "false" { assert w[0] == 'f'; }
    else if w == "0" { assert |w| == 1 && w[0] == '0'; }
    else if w == "no" { assert |w| == 2 && w[0] == 'n'; }
    else if w == "off" { assert |w| == 3 && w[0] == 'o' && w[1] == 'f'; }
  }

  /** `safe_bool`: `None` stays `None`, booleans pass through, strings are
      lower-cased and stripped and matched against the two word lists, and
      everything else falls back to `bool(int(v))`, `None` when that raises. */
  function SafeBool(v: PyValue): (r: Option<bool>)
    ensures v.PyNone? ==> r == None
    ensures v.PyBool? ==> r == Some(v.b)
    ensures v.PyInt? ==> r == Some(v.i != 0)
    ensures v.PyStr? && TrueWord(Strip(Lower(v.s))) ==> r == Some(true)
    ensures v.PyStr? && FalseWord(Strip(Lower(v.s))) ==> r == Some(false)
    ensures v.PyStr? && !TrueWord(Strip(Lower(v.s))) && !FalseWord(Strip(Lower(v.s))) ==>
      && (r.Some? <==> ParseInt(Strip(Lower(v.s))).Some?)
      && (r.Some? ==> r == Some(ParseInt(Strip(Lower(v.s))).value != 0))
  {
    match v
    case PyNone => None
    case PyBool(b) => Some(b)
    case PyInt(i) => Some(i != 0)
    case PyStr(s) =>
      var w := Strip(Lower(s));
      WordListsDisjoint(w);
      if TrueWord(w) then Some(true)
      else if FalseWord(w) then Some(false)
      else match ParseInt(w)
        case Some(n) => Some(n != 0)
        case None => None
  }

  /** On a string, `safe_bool` yields a value exactly when the cleaned text is
      one of the eight words or an integer literal. */
  lemma SafeBoolStringDefined(s: string)
    ensures SafeBool(PyStr(s)).Some? <==>
      (var w := Strip(Lower(s)); TrueWord(w) || FalseWord(w) || ParseInt(w).Some?)
  {
  }

  /** Lower-casing leaves text without upper-case ASCII letters unchanged. */
  lemma LowerNoLetters(s: string)
    requires forall k :: 0 <= k < |s| ==> !('A' <= s[k] <= 'Z')
    ensures Lower(s) == s
  {
  }

  lemma LowerShownBools()
    ensures Lower("True") == "true" && Lower("False") == "false"
  {
    var t := Lower("True");
    assert t[0] == 't' && t[1] == 'r' && t[2] == 'u' && t[3] == 'e';
    var f := Lower("False");
    assert f[0] == 'f' && f[1] == 'a' && f[2] == 'l' && f[3] == 's' && f[4] == 'e';
  }

  lemma SafeBoolOfTrueText()
    ensures SafeBool(PyStr("True")) == Some(true)
  {
    LowerShownBools();
    StripOfStripped("true");
  }

  lemma SafeBoolOfFalseText()
    ensures SafeBool(PyStr("False")) == Some(false)
  {
    LowerShownBools();
    StripOfStripped("false");
  }

  /** `safe_bool(str(b)) == b`: Python's rendering of a boolean reads back. */
  lemma SafeBoolOfShownBool(b: bool)
    ensures SafeBool(PyStr(PyStrOf(PyBool(b)))) == Some(b)
  {
    SafeBoolOfTrueText();
    SafeBoolOfFalseText();
  }

  /** `safe_bool(safe_str(b)) == b`: a boolean survives the two conversions. */
  lemma SafeBoolOfSafeStr(b: bool)
    ensures SafeBool(PyStr(SafeStr(PyBool(b)).value)) == Some(b)
  {
    SafeBoolOfShownBool(b);
  }

  /** Decimal text is already clean: lower-casing and stripping keep it. */
  lemma CleanShownInt(i: int)
    ensures Strip(Lower(ShowInt(i))) == ShowInt(i)
  {
    var s := ShowInt(i);
    LowerNoLetters(s);
    assert !IsSpace(s[0]) && !IsSpace(s[|s| - 1]);
    StripOfStripped(s);
  }

  /** Decimal text of a number other than 0 and 1 is on neither word list. */
  lemma ShownIntNotWord(i: int)
    requires i != 0 && i != 1
    ensures !TrueWord(ShowInt(i)) && !FalseWord(ShowInt(i))
  {
    var s := ShowInt(i);
    if i < 0 {
      assert s[0] == '-';
    } else {
      ShowNatValue(i);
      assert IsDigit(s[0]);
      assert RunValue("0") == 0 && RunValue("1") == 1;
    }
  }

  /** The decimal rendering of any integer other than 0 and 1 reads as true,
      and as nothing past the digit limit. */
  lemma SafeBoolOfShownInt(i: int)
    requires i != 0 && i != 1
    ensures SafeBool(PyStr(ShowInt(i))) == if IntDigits(i) <= MaxStrDigits then Some(true) else None
  {
    CleanShownInt(i);
    ParseShowInt(i);
    ShownIntNotWord(i);
  }

  // ---------------------------------------------------------------------------
  // truncate_string

  /** Python's `s[:k]`, including the negative `k` that counts from the end. */
  function PyPrefix(s: string, k: int): (r: string)
    ensures |r| <= |s| && r == s[..|r|]
    ensures k >= 0 ==> |r| == if k < |s| then k else |s|
    ensures k < 0 ==> |r| == if |s| + k > 0 then |s| + k else 0
  {
    if k >= 0 then (if k < |s| then s[..k] else s)
    else if |s| + k > 0 then s[..|s| + k] else []
  }

  /** `truncate_string` as written: empty or short-enough text comes back as is,
      otherwise the text is cut with `text[:max_length - len(suffix)]` and the
      suffix appended. */
  function TruncateString(text: string, maxLength: int, suffix: string): (r: string)
    ensures (|text| == 0 || |text| <= maxLength) ==> r == text
    ensures |text| > 0 && |text| > maxLength ==>
      r == PyPrefix(text, maxLength - |suffix|) + suffix
  {
    if |text| == 0 || |text| <= maxLength then text
    else PyPrefix(text, maxLength - |suffix|) + suffix
  }

  /** With room for the suffix, an over-long text is cut to exactly
      `max_length` characters: a prefix of the text followed by the suffix. */
  lemma TruncateFits(text: string, maxLength: int, suffix: string)
    requires |text| > maxLength >= |suffix|
    ensures var r := TruncateString(text, maxLength, suffix);
      && |r| == maxLength
      && r == text[..maxLength - |suffix|] + suffix
  {
  }

  /** When `max_length` is below the suffix length the slice bound goes negative
      and Python counts it from the end, so the "truncated" text is longer than
      `max_length` — here longer than the original text. */
  lemma TruncateNegativeSliceOverlong()
    ensures TruncateString("abcdef", 2, "...") == "abcde..."
    ensures |TruncateString("abcdef", 2, "...")| > 2
  {
    assert PyPrefix("abcdef", -1) == "abcde";
  }

  /** `truncate_string` with the slice bound clamped at zero and the result cut
      to `max_length`, so the result never exceeds `max_length`. */
  function TruncateStringBounded(text: string, maxLength: int, suffix: string): (r: string)
    ensures (|text| == 0 || |text| <= maxLength) ==> r == text
    ensures |text| > 0 && |text| > maxLength ==> |r| <= if maxLength > 0 then maxLength else 0
    ensures maxLength >= |suffix| ==> r == TruncateString(text, maxLength, suffix)
    ensures |text| > 0 && |text| > maxLength && maxLength < |suffix| ==>
      r == suffix[..if maxLength > 0 then maxLength else 0]
  {
    if |text| == 0 || |text| <= maxLength then text
    else if maxLength >= |suffix| then text[..maxLength - |suffix|] + suffix
    else suffix[..if maxLength > 0 then maxLength else 0]
  }
}
