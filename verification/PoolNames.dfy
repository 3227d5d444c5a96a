/** Pool instance names: printing `base-slot`, and reading the slot back. */
module PoolNames {

  // The largest value strconv.Atoi yields on a 64-bit platform.
  const MAX_INT: nat := 0x7fff_ffff_ffff_ffff

  predicate IsDigit(c: char) {
    '0' <= c <= '9'
  }

  predicate AllDigits(s: string) {
    forall i :: 0 <= i < |s| ==> IsDigit(s[i])
  }

  function DigitChar(d: nat): (c: char)
    requires d < 10
    ensures IsDigit(c) && DigitValue(c) == d
  {
    '0' + d as char
  }

  function DigitValue(c: char): (d: nat)
    requires IsDigit(c)
    ensures d < 10
  {
    (c - '0') as nat
  }

  // Go's %d on a non-negative number.
  function Numeral(n: nat): (s: string)
    ensures s != "" && AllDigits(s)
  {
    if n < 10 then [DigitChar(n)] else Numeral(n / 10) + [DigitChar(n % 10)]
  }

  function NumeralValue(s: string): nat
    requires AllDigits(s)
  {
    if s == "" then 0 else NumeralValue(s[..|s| - 1]) * 10 + DigitValue(s[|s| - 1])
  }

  // A numeral as %d prints it: not empty, and no leading zero unless it is "0".
  predicate Canonical(s: string) {
    s != "" && AllDigits(s) && (s[0] == '0' ==> |s| == 1)
  }

  lemma {:induction false} ValueOfNumeral(n: nat)
    ensures NumeralValue(Numeral(n)) == n && Canonical(Numeral(n))
    ensures n > 0 ==> Numeral(n)[0] != '0'
  {
    if n >= 10 {
      ValueOfNumeral(n / 10);
      var s := Numeral(n);
      assert s[..|s| - 1] == Numeral(n / 10);
    }
  }

  lemma {:induction false} LeadingDigitCounts(s: string)
    requires s != "" && AllDigits(s) && s[0] != '0'
    ensures NumeralValue(s) > 0
  {
    if |s| > 1 {
      LeadingDigitCounts(s[..|s| - 1]);
    }
  }

  lemma SameLastDigit(a: nat, d: nat, b: nat, e: nat)
    requires d < 10 && e < 10 && a * 10 + d == b * 10 + e
    ensures a == b && d == e
  {
  }

  // A value has one canonical numeral.
  lemma {:induction false} OneNumeral(s: string, t: string)
    requires Canonical(s) && Canonical(t) && NumeralValue(s) == NumeralValue(t)
    ensures s == t
  {
    var a, b := s[..|s| - 1], t[..|t| - 1];
    var c, d := s[|s| - 1], t[|t| - 1];
    assert s == a + [c] && t == b + [d];
    SameLastDigit(NumeralValue(a), DigitValue(c), NumeralValue(b), DigitValue(d));
    if a != "" {
      LeadingDigitCounts(a);
    }
    if b != "" {
      LeadingDigitCounts(b);
    }
    if a != "" {
      OneNumeral(a, b);
    }
  }

  lemma NumeralOfValue(s: string)
    requires Canonical(s)
    ensures Numeral(NumeralValue(s)) == s
  {
    ValueOfNumeral(NumeralValue(s));
    OneNumeral(s, Numeral(NumeralValue(s)));
  }

  // ---- The adoption barrier's parser --------------------------------------------

  // A match of -(\d+)$ that begins at k.
  predicate MatchesAt(name: string, k: nat) {
    k + 1 < |name| && name[k] == '-' && AllDigits(name[k + 1..])
  }

  datatype Match = NoMatch | Found(at: nat)

  // The leftmost match at or after k.
  function FindSuffix(name: string, k: nat): (m: Match)
    requires k <= |name|
    ensures m.Found? ==> k <= m.at && MatchesAt(name, m.at)
    ensures m.NoMatch? ==> forall j :: k <= j < |name| ==> !MatchesAt(name, j)
    decreases |name| - k
  {
    if k == |name| then NoMatch
    else if MatchesAt(name, k) then Found(k)
    else FindSuffix(name, k + 1)
  }

  function Atoi(digits: string): nat
    requires AllDigits(digits)
  {
    if NumeralValue(digits) <= MAX_INT then NumeralValue(digits) else 0
  }

  // parsePoolSlot: the numeric suffix, or 0 when there is none or it does not fit an int.
  function ParseSlot(name: string): nat {
    var m := FindSuffix(name, 0);
    if m.NoMatch? then 0 else Atoi(name[m.at + 1..])
  }

  function Instance(base: string, slot: nat): string {
    base + "-" + Numeral(slot)
  }

  // resolvePoolBase strips as many characters as `-slot` prints to.
  function Strip(name: string): string
    requires |Numeral(ParseSlot(name))| < |name|
  {
    name[..|name| - |Numeral(ParseSlot(name))| - 1]
  }

  lemma NoLaterDash(name: string, k: nat, j: nat)
    requires MatchesAt(name, k) && k < j < |name|
    ensures name[j] != '-'
  {
    assert name[j] == name[k + 1..][j - k - 1];
  }

  // There is at most one match: what follows the dash holds no further dash.
  lemma OnlyMatch(name: string, k: nat)
    requires MatchesAt(name, k)
    ensures FindSuffix(name, 0) == Found(k)
  {
    var m := FindSuffix(name, 0);
    forall i: nat, j: nat | MatchesAt(name, i) && i < j < |name|
      ensures name[j] != '-'
    {
      NoLaterDash(name, i, j);
    }
  }

  /** Printing and parsing undo each other, whatever dashes and digits the base contains. */
  lemma InstanceRoundTrip(base: string, slot: nat)
    requires slot <= MAX_INT
    ensures ParseSlot(Instance(base, slot)) == slot
    ensures |Numeral(slot)| < |Instance(base, slot)| && Strip(Instance(base, slot)) == base
  {
    var name := Instance(base, slot);
    assert name[|base| + 1..] == Numeral(slot);
    OnlyMatch(name, |base|);
    ValueOfNumeral(slot);
  }

  // A printed name's suffix is a numeral without leading zeros.
  lemma PrintedSuffix(base: string, slot: nat)
    requires slot > 0
    ensures var name := Instance(base, slot);
            FindSuffix(name, 0) == Found(|base|) && name[|base| + 1] != '0'
  {
    var name := Instance(base, slot);
    assert name[|base| + 1..] == Numeral(slot);
    OnlyMatch(name, |base|);
    ValueOfNumeral(slot);
  }

  lemma PlainSuffix(name: string)
    requires ParseSlot(name) > 0 && name[FindSuffix(name, 0).at + 1] != '0'
    ensures Instance(name[..FindSuffix(name, 0).at], ParseSlot(name)) == name
  {
    var at := FindSuffix(name, 0).at;
    NumeralOfValue(name[at + 1..]);
    assert name == name[..at] + "-" + name[at + 1..];
  }

  /** In the other direction, stripping a parsed suffix loses nothing exactly when the suffix
      was printed without leading zeros. */
  lemma StripExact(name: string)
    requires ParseSlot(name) > 0
    ensures |Numeral(ParseSlot(name))| < |name|
    ensures Instance(Strip(name), ParseSlot(name)) == name <==> name[FindSuffix(name, 0).at + 1] != '0'
  {
    var at, slot := FindSuffix(name, 0).at, ParseSlot(name);
    NumeralNoLonger(name[at + 1..]);
    if name[at + 1] != '0' {
      PlainSuffix(name);
      assert |name| == at + 1 + |Numeral(slot)|;
    }
    PrintedSuffix(Strip(name), slot);
  }

  /** With leading zeros it does not: `w-007` is slot 7, of a base read as `w-0`. */
  lemma LeadingZerosMisread()
    ensures ParseSlot("w-007") == 7 && Numeral(7) == "7" && Strip("w-007") == "w-0" && Instance("w-0", 7) == "w-0-7"
  {
    var name := "w-007";
    assert name[2..] == "007";
    assert MatchesAt(name, 1);
    OnlyMatch(name, 1);
    assert "007"[..2] == "00" && "00"[..1] == "0" && "0"[..0] == "";
    assert NumeralValue("00") == 0;
  }

  lemma {:induction false} NumeralNoLonger(s: string)
    requires AllDigits(s) && s != ""
    ensures |Numeral(NumeralValue(s))| <= |s|
  {
    if |s| > 1 {
      NumeralNoLonger(s[..|s| - 1]);
    }
  }

  /** Distinct pool seats never print to one name. */
  lemma InstanceInjective(base: string, slot: nat, base': string, slot': nat)
    requires slot <= MAX_INT && slot' <= MAX_INT && Instance(base, slot) == Instance(base', slot')
    ensures base == base' && slot == slot'
  {
    InstanceRoundTrip(base, slot);
    InstanceRoundTrip(base', slot');
  }
}
