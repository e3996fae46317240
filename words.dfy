/** Spoken Colombian-Spanish rendering of peso amounts (`numberToWords` and
    `convertHundreds` in client/src/hooks/useTRM.ts). The methods follow the
    code statement by statement, building the text by appending; the
    functions state, group of digits by group of digits, which phrase each
    amount gets, and the lemmas state the grammar that results. */
module SpanishWords {

  // ---------------------------------------------------------------------
  // String primitives of JavaScript used by the code
  // ---------------------------------------------------------------------

  /** Whitespace that `String.prototype.trim` removes (the ASCII part; the
      tables and literals below contain no other whitespace). */
  predicate IsSpace(c: char) {
    c == ' ' || c == '\t' || c == '\n' || c == '\r'
  }

  function TrimStart(s: string): string {
    if |s| > 0 && IsSpace(s[0]) then TrimStart(s[1..]) else s
  }

  function TrimEnd(s: string): string {
    if |s| > 0 && IsSpace(s[|s| - 1]) then TrimEnd(s[..|s| - 1]) else s
  }

  /** `s.trim()`: drops leading and trailing whitespace. */
  function Trim(s: string): string {
    TrimEnd(TrimStart(s))
  }

  /** Neither starts nor ends with whitespace. */
  predicate Clean(s: string) {
    s == [] || (!IsSpace(s[0]) && !IsSpace(s[|s| - 1]))
  }

  /** A single word: non-empty and free of whitespace. */
  predicate IsWord(w: string) {
    |w| > 0 && forall i :: 0 <= i < |w| ==> !IsSpace(w[i])
  }

  function LowerChar(c: char): char {
    if 'A' <= c <= 'Z' then (c as int - 'A' as int + 'a' as int) as char else c
  }

  /** `s.toLowerCase()` on the ASCII letters the tables use. */
  function ToLower(s: string): (t: string)
    ensures |t| == |s|
    ensures forall i :: 0 <= i < |s| ==> t[i] == LowerChar(s[i])
  {
    if s == [] then [] else [LowerChar(s[0])] + ToLower(s[1..])
  }

  lemma TrimClean(s: string)
    requires Clean(s)
    ensures Trim(s) == s
  {
  }

  lemma TrimTrailingSpace(s: string)
    requires s != [] && Clean(s)
    ensures Trim(s + " ") == s
  {
    var u := s + " ";
    assert TrimStart(u) == u;
    assert u[..|u| - 1] == s;
    assert TrimEnd(s) == s;
    assert TrimEnd(u) == TrimEnd(s);
  }

  lemma {:induction false} TrimStartFacts(s: string)
    ensures |TrimStart(s)| <= |s| && TrimStart(s) == s[|s| - |TrimStart(s)|..]
    ensures forall i :: 0 <= i < |s| - |TrimStart(s)| ==> IsSpace(s[i])
    ensures TrimStart(s) == [] || !IsSpace(TrimStart(s)[0])
  {
    if |s| > 0 && IsSpace(s[0]) {
      TrimStartFacts(s[1..]);
    }
  }

  lemma {:induction false} TrimEndFacts(s: string)
    ensures |TrimEnd(s)| <= |s| && TrimEnd(s) == s[..|TrimEnd(s)|]
    ensures forall i :: |TrimEnd(s)| <= i < |s| ==> IsSpace(s[i])
    ensures TrimEnd(s) == [] || !IsSpace(TrimEnd(s)[|TrimEnd(s)| - 1])
  {
    if |s| > 0 && IsSpace(s[|s| - 1]) {
      var p := s[..|s| - 1];
      TrimEndFacts(p);
      assert TrimEnd(s) == TrimEnd(p);
      assert forall i :: 0 <= i < |p| ==> p[i] == s[i];
    }
  }

  /** What `trim` returns: the part of `s` that starts after its leading
      whitespace (`k` characters) and stops before its trailing whitespace;
      the result neither starts nor ends with whitespace. */
  lemma TrimSegment(s: string)
    ensures var k, t := |s| - |TrimStart(s)|, Trim(s);
      Clean(t) && 0 <= k <= |s| - |t| && t == s[k..k + |t|] &&
      (forall i :: 0 <= i < k ==> IsSpace(s[i])) &&
      (forall i :: k + |t| <= i < |s| ==> IsSpace(s[i]))
  {
    var u := TrimStart(s);
    TrimStartFacts(s);
    TrimEndFacts(u);
    var k, t := |s| - |u|, Trim(s);
    assert t == TrimEnd(u);
    if t != [] {
      assert t[0] == u[0];
    }
    assert t == s[k..k + |t|];
    forall i | k + |t| <= i < |s| ensures IsSpace(s[i]) {
      assert s[i] == u[i - k];
    }
  }

  // ---------------------------------------------------------------------
  // Word tables
  // ---------------------------------------------------------------------

  const Units: seq<string> :=
    ["", "Un", "Dos", "Tres", "Cuatro", "Cinco", "Seis", "Siete", "Ocho", "Nueve"]
  const Teens: seq<string> :=
    ["Diez", "Once", "Doce", "Trece", "Catorce", "Quince", "Dieciséis", "Diecisiete", "Dieciocho", "Diecinueve"]
  const Tens: seq<string> :=
    ["", "", "Veinte", "Treinta", "Cuarenta", "Cincuenta", "Sesenta", "Setenta", "Ochenta", "Noventa"]
  const HundredNames: seq<string> :=
    ["", "Ciento", "Doscientos", "Trescientos", "Cuatrocientos", "Quinientos", "Seiscientos", "Setecientos", "Ochocientos", "Novecientos"]

  /** Every non-placeholder table entry is a single word. */
  lemma TablesAreWords()
    ensures |Units| == |Teens| == |Tens| == |HundredNames| == 10
    ensures forall i :: 1 <= i < 10 ==> IsWord(Units[i]) && IsWord(HundredNames[i])
    ensures forall i :: 0 <= i < 10 ==> IsWord(Teens[i])
    ensures forall i :: 2 <= i < 10 ==> IsWord(Tens[i])
    ensures Units[0] == Tens[0] == Tens[1] == HundredNames[0] == ""
  {
    UnitWords();
    HundredWordsAreWords();
    TeenAndTenWords();
  }

  lemma UnitWords()
    ensures forall i :: 1 <= i < 10 ==> IsWord(Units[i])
  {
  }

  lemma HundredWordsAreWords()
    ensures forall i :: 1 <= i < 10 ==> IsWord(HundredNames[i])
  {
  }

  lemma TeenAndTenWords()
    ensures forall i :: 0 <= i < 10 ==> IsWord(Teens[i])
    ensures forall i :: 2 <= i < 10 ==> IsWord(Tens[i])
  {
  }

  // ---------------------------------------------------------------------
  // Specification: the phrase of each group of digits
  // ---------------------------------------------------------------------

  /** The phrase of 0..99: units, teens, bare tens, the fused "Veinti..."
      forms and "tens y units". Zero has the empty phrase. */
  function TwoDigitWords(n: nat): string
    requires n < 100
  {
    if n >= 20 then
      var ten, unit := n / 10, n % 10;
      if unit == 0 then Tens[ten]
      else if ten == 2 then "Veinti" + ToLower(Units[unit])
      else Tens[ten] + " y " + Units[unit]
    else if n >= 10 then Teens[n - 10]
    else Units[n]
  }

  /** The phrase of a three-digit group 0..999: exactly 100 is "Cien",
      otherwise the hundreds word, then the phrase of the last two digits. */
  function HundredsWords(n: nat): string
    requires n < 1000
  {
    if n == 100 then "Cien"
    else if n < 100 then TwoDigitWords(n)
    else if n % 100 == 0 then HundredNames[n / 100]
    else HundredNames[n / 100] + " " + TwoDigitWords(n % 100)
  }

  /** Joins two phrases with one space, omitting an empty one. */
  function JoinWords(a: string, b: string): string {
    if a == [] then b else if b == [] then a else a + " " + b
  }

  /** The quotient of `a / d` truncated toward zero. */
  function TruncQuot(a: int, d: int): int
    requires d > 0
  {
    if a >= 0 then a / d else -((-a) / d)
  }

  /** JavaScript `a % d` for a positive divisor: truncates toward zero, so
      the remainder takes the sign of `a`. */
  function TruncRem(a: int, d: int): (r: int)
    requires d > 0
    ensures a >= 0 ==> 0 <= r < d
    ensures a < 0 ==> -d < r <= 0
    ensures a == d * TruncQuot(a, d) + r
  {
    if a >= 0 then a % d else -((-a) % d)
  }

  /** The phrase of the thousands multiplier: none, the bare "Mil" for one
      thousand, and "<group> Mil" from two thousand on. */
  function ThousandsWords(t: int): string
    requires t < 1000
  {
    if t <= 0 then "" else if t == 1 then "Mil" else HundredsWords(t) + " Mil"
  }

  /** The phrase of the integer part of an amount below one million. */
  function IntegerWords(i: int): string
    requires i < 1000000
  {
    var rem := TruncRem(i, 1000);
    JoinWords(ThousandsWords(i / 1000), if rem > 0 then HundredsWords(rem) else "")
  }

  /** `Math.floor(value)`. */
  function IntPart(value: real): (i: int)
    ensures i as real <= value < i as real + 1.0
  {
    value.Floor
  }

  /** `Math.round((value - intPart) * 100)`: JavaScript rounds halves up. */
  function Cents(value: real): (c: int)
    ensures var scaled := (value - IntPart(value) as real) * 100.0;
      scaled - 0.5 < c as real <= scaled + 0.5
  {
    ((value - IntPart(value) as real) * 100.0 + 0.5).Floor
  }

  /** The full spoken amount. */
  function Spelled(value: real): string
    requires value < 1000000.0
  {
    if value == 0.0 then "Cero"
    else if value == 100.0 then "Cien"
    else AmountWords(IntPart(value), Cents(value))
  }

  /** The spoken amount from its integer part and its cents: the integer
      phrase, " Pesos", and the cents clause. */
  function AmountWords(intPart: int, cents: int): string
    requires intPart < 1000000 && cents <= 100
  {
    IntegerWords(intPart) + " Pesos" + CentsClause(cents)
  }

  /** The clause naming the cents, present only when there are some. */
  function CentsClause(cents: int): string
    requires cents <= 100
  {
    if cents > 0 then " Con " + HundredsWords(cents) + " Centavos" else ""
  }

  // ---------------------------------------------------------------------
  // The code, statement by statement
  // ---------------------------------------------------------------------

  /** `convertHundreds`: appends the hundreds word and a space, reduces the
      number to its last two digits, appends their phrase, and trims. */
  method ConvertHundreds(num: nat) returns (r: string)
    requires num < 1000
    ensures r == HundredsWords(num)
  {
    var n := num;
    var result := "";
    if n >= 100 {
      if n == 100 {
        return "Cien";
      }
      result := result + HundredNames[n / 100] + " ";
      n := n % 100;
    }
    ghost var prefix := result;
    assert n == num % 100;
    if n >= 20 {
      var ten := n / 10;
      var unit := n % 10;
      if unit == 0 {
        result := result + Tens[ten];
      } else if ten == 2 {
        result := result + "Veinti" + ToLower(Units[unit]);
      } else {
        result := result + Tens[ten] + " y " + Units[unit];
      }
    } else if n >= 10 {
      result := result + Teens[n - 10];
    } else if n > 0 {
      result := result + Units[n];
    }
    assert result == prefix + TwoDigitWords(n);
    r := Trim(result);
    HundredsTrim(num, prefix, result);
  }

  /** What the final `trim()` of `convertHundreds` makes of the text
      accumulated so far. */
  lemma HundredsTrim(num: nat, prefix: string, acc: string)
    requires 100 < num < 1000 || num < 100
    requires prefix == if num > 100 then HundredNames[num / 100] + " " else ""
    requires acc == prefix + TwoDigitWords(num % 100)
    ensures Trim(acc) == HundredsWords(num)
  {
    if num < 100 {
      assert prefix == "";
      assert num % 100 == num;
      assert acc == TwoDigitWords(num) by {
        var w := TwoDigitWords(num);
        assert acc == [] + w;
        assert [] + w == w;
      }
      TwoDigitShape(num);
      TrimClean(acc);
    } else if num % 100 == 0 {
      assert acc == HundredNames[num / 100] + " " + TwoDigitWords(0);
      RoundHundredTrim(num, acc);
    } else {
      assert acc == HundredNames[num / 100] + " " + TwoDigitWords(num % 100);
      MixedHundredTrim(num, acc);
    }
  }

  lemma RoundHundredTrim(num: nat, acc: string)
    requires 100 < num < 1000 && num % 100 == 0
    requires acc == HundredNames[num / 100] + " " + TwoDigitWords(0)
    ensures Trim(acc) == HundredsWords(num)
  {
    TablesAreWords();
    var h := HundredNames[num / 100];
    assert IsWord(h);
    assert acc == h + " ";
    TrimTrailingSpace(h);
  }

  lemma MixedHundredTrim(num: nat, acc: string)
    requires 100 < num < 1000 && num % 100 != 0
    requires acc == HundredNames[num / 100] + " " + TwoDigitWords(num % 100)
    ensures Trim(acc) == HundredsWords(num)
  {
    HundredsShape(num);
    TrimClean(acc);
  }

  /** `numberToWords`: the special amounts 0 and 100 first, then the split
      of the amount into its integer part and its rounded cents. */
  method NumberToWords(value: real) returns (r: string)
    requires value < 1000000.0
    ensures r == Spelled(value)
  {
    if value == 0.0 {
      return "Cero";
    }
    if value == 100.0 {
      return "Cien";
    }
    var intPart := value.Floor;
    var decPart := ((value - intPart as real) * 100.0 + 0.5).Floor;
    CentsRange(value);
    assert intPart == IntPart(value) && decPart == Cents(value);
    r := SpellPesos(intPart, decPart);
  }

  /** The body of `numberToWords` after the split: the thousands phrase, the
      remainder, " Pesos" after trimming, and the cents clause. */
  method SpellPesos(intPart: int, decPart: int) returns (r: string)
    requires intPart < 1000000 && 0 <= decPart <= 100
    ensures r == AmountWords(intPart, decPart)
  {
    var result := "";
    var thousands := intPart / 1000;
    var remainder := TruncRem(intPart, 1000);
    if thousands > 0 {
      if thousands == 1 {
        result := result + "Mil ";
      } else {
        var h := ConvertHundreds(thousands);
        result := result + h + " Mil ";
      }
    }
    ghost var th := ThousandsWords(thousands);
    assert result == if thousands > 0 then th + " " else "";
    ghost var prefix := result;
    ghost var rw := if remainder > 0 then HundredsWords(remainder) else "";
    if remainder > 0 {
      var h := ConvertHundreds(remainder);
      result := result + h;
    }
    assert Trim(result) == IntegerWords(intPart) by {
      ThousandsShape(thousands);
      HundredsShape(if remainder > 0 then remainder else 0);
      assert result == prefix + rw;
      JoinTrim(th, rw, result);
      IntegerWordsJoin(intPart);
    }
    result := Trim(result) + " Pesos";
    if decPart > 0 {
      var h := ConvertHundreds(decPart);
      result := result + " Con " + h + " Centavos";
    }
    r := result;
  }

  // ---------------------------------------------------------------------
  // Grammar of the phrases
  // ---------------------------------------------------------------------

  /** Zero has the empty phrase; 1..99 give a clean non-empty phrase. */
  lemma TwoDigitShape(n: nat)
    requires n < 100
    ensures n == 0 <==> TwoDigitWords(n) == ""
    ensures Clean(TwoDigitWords(n))
  {
    TablesAreWords();
    if n >= 20 && n % 10 != 0 && n / 10 == 2 {
      var w := ToLower(Units[n % 10]);
      assert IsWord(Units[n % 10]);
      assert !IsSpace(w[|w| - 1]) by {
        assert !IsSpace(Units[n % 10][|w| - 1]);
      }
    }
  }

  /** The phrase of 1..999 is non-empty, has no leading or trailing space,
      and the phrase of 0 is empty. */
  lemma HundredsShape(n: nat)
    requires n < 1000
    ensures n == 0 <==> HundredsWords(n) == ""
    ensures Clean(HundredsWords(n))
  {
    TablesAreWords();
    TwoDigitShape(n % 100);
    if n > 100 {
      assert IsWord(HundredNames[n / 100]);
    }
  }

  /** Trimming "<a> <b>", where "<a> " is left out when `a` is empty,
      joins two clean phrases. */
  lemma JoinTrim(a: string, b: string, acc: string)
    requires Clean(a) && Clean(b)
    requires acc == (if a == [] then "" else a + " ") + b
    ensures Trim(acc) == JoinWords(a, b)
  {
    if a == [] {
      TrimClean(acc);
    } else if b == [] {
      assert acc == a + " ";
      TrimTrailingSpace(a);
    } else {
      assert acc == a + " " + b;
      assert acc[0] == a[0];
      assert acc[|acc| - 1] == b[|b| - 1];
      TrimClean(acc);
    }
  }

  /** The thousands phrase is clean, and empty exactly when there are no
      thousands. */
  lemma ThousandsShape(t: int)
    requires t < 1000
    ensures t <= 0 <==> ThousandsWords(t) == ""
    ensures Clean(ThousandsWords(t))
  {
    if t > 1 {
      var h := HundredsWords(t);
      HundredsShape(t);
      assert (h + " Mil")[0] == h[0];
    }
  }

  /** The integer phrase joins the thousands phrase and the phrase of the
      remainder. */
  lemma IntegerWordsJoin(i: int)
    requires i < 1000000
    ensures var rem := TruncRem(i, 1000);
      IntegerWords(i) == JoinWords(ThousandsWords(i / 1000), if rem > 0 then HundredsWords(rem) else "")
  {
  }

  /** `Math.round` of the scaled fraction lies in 0..100. The top value is
      reached (0.999 has 100 cents), and then the clause reads
      " Con Cien Centavos". */
  lemma CentsRange(value: real)
    ensures 0 <= Cents(value) <= 100
  {
  }

  lemma HundredCents()
    ensures Cents(0.999) == 100
    ensures CentsClause(Cents(0.999)) == " Con Cien Centavos"
  {
  }

  /** An amount written with two decimals, `k + c/100`, has integer part
      `k` and exactly `c` cents. */
  lemma TwoDecimalAmount(k: int, c: int)
    requires 0 <= c < 100
    ensures IntPart(k as real + c as real / 100.0) == k
    ensures Cents(k as real + c as real / 100.0) == c
  {
    var v := k as real + c as real / 100.0;
    assert k as real <= v < k as real + 1.0;
    assert IntPart(v) == k;
    assert (v - k as real) * 100.0 + 0.5 == c as real + 0.5;
  }

  /** The two-digit phrases: units and teens from their tables, bare tens
      for the multiples of ten, one fused "Veinti..." word for 21..29 and
      "<tens> y <units>" for 31..99. */
  lemma TwoDigitGrammar(n: nat)
    requires n < 100
    ensures 1 <= n <= 9 ==> TwoDigitWords(n) == Units[n]
    ensures 10 <= n <= 19 ==> TwoDigitWords(n) == Teens[n - 10]
    ensures 20 <= n && n % 10 == 0 ==> TwoDigitWords(n) == Tens[n / 10]
    ensures 21 <= n <= 29 ==> IsWord(TwoDigitWords(n)) && TwoDigitWords(n)[..6] == "Veinti"
    ensures 21 <= n <= 29 ==> TwoDigitWords(n) == "Veinti" + ToLower(Units[n % 10])
    ensures 31 <= n && n % 10 != 0 ==> TwoDigitWords(n) == Tens[n / 10] + " y " + Units[n % 10]
    ensures TwoDigitWords(1) == "Un" && TwoDigitWords(21) == "Veintiun"
  {
    TablesAreWords();
    if 21 <= n <= 29 {
      VeintiWord(n);
    }
    assert TwoDigitWords(1) == "Un";
    VeintiunWord();
  }

  /** 21..29 fuse "Veinti" with the lower-cased unit into one word. */
  lemma VeintiWord(n: nat)
    requires 21 <= n <= 29
    ensures TwoDigitWords(n) == "Veinti" + ToLower(Units[n % 10])
    ensures IsWord(TwoDigitWords(n)) && TwoDigitWords(n)[..6] == "Veinti"
  {
    TablesAreWords();
    var u := Units[n % 10];
    var w := "Veinti" + ToLower(u);
    assert TwoDigitWords(n) == w;
    assert IsWord(u);
    forall i | 0 <= i < |w| ensures !IsSpace(w[i]) {
      if i >= 6 {
        assert w[i] == LowerChar(u[i - 6]);
      }
    }
  }

  lemma VeintiunWord()
    ensures TwoDigitWords(21) == "Veintiun"
  {
    assert Units[1] == "Un";
    assert LowerChar('U') == 'u' && LowerChar('n') == 'n';
    assert ToLower("Un") == "un" by {
      assert |ToLower("Un")| == 2;
    }
    assert "Veinti" + "un" == "Veintiun";
  }

  /** The phrase of 101..999 starts with the hundreds word ("Ciento" for
      101..199); exactly 100 is "Cien". */
  lemma HundredsLeadingWord(n: nat)
    requires 100 <= n < 1000
    ensures n == 100 ==> HundredsWords(n) == "Cien"
    ensures n > 100 ==> HundredsWords(n)[..|HundredNames[n / 100]|] == HundredNames[n / 100]
    ensures 100 < n < 200 ==> HundredsWords(n)[..6] == "Ciento"
  {
  }

  /** The integer phrase is empty exactly when the integer part is not
      positive; otherwise it is clean. */
  lemma IntegerWordsShape(i: int)
    requires i < 1000000
    ensures IntegerWords(i) == "" <==> i <= 0
    ensures Clean(IntegerWords(i))
  {
    var rem := TruncRem(i, 1000);
    ThousandsShape(i / 1000);
    HundredsShape(if rem > 0 then rem else 0);
    var th, rw := ThousandsWords(i / 1000), if rem > 0 then HundredsWords(rem) else "";
    if th != [] && rw != [] {
      var j := th + " " + rw;
      assert j[0] == th[0] && j[|j| - 1] == rw[|rw| - 1];
    }
  }

  /** The thousands: one thousand is the bare "Mil" (never "Un Mil"), a
      multiplier of two or more is "<group> Mil", and a nonzero remainder
      follows after one space. */
  lemma ThousandsGrammar(i: int)
    requires 1000 <= i < 1000000
    ensures i < 2000 ==> IntegerWords(i) == if i % 1000 == 0 then "Mil" else "Mil " + HundredsWords(i % 1000)
    ensures i >= 2000 ==> (IntegerWords(i) ==
      HundredsWords(i / 1000) + " Mil" + (if i % 1000 == 0 then "" else " " + HundredsWords(i % 1000)))
    ensures i < 2000 ==> IntegerWords(i)[..3] == "Mil"
  {
    RemainderWords(i);
    if i < 2000 {
      OneThousandWords(i);
    } else {
      assert ThousandsWords(i / 1000) == HundredsWords(i / 1000) + " Mil";
    }
  }

  /** For a positive integer part the phrase joins the thousands phrase and
      the phrase of `i % 1000`, which is empty exactly when that is 0. */
  lemma RemainderWords(i: int)
    requires 0 <= i < 1000000
    ensures var rw := if i % 1000 > 0 then HundredsWords(i % 1000) else "";
      IntegerWords(i) == JoinWords(ThousandsWords(i / 1000), rw) && (rw == "" <==> i % 1000 == 0)
  {
    assert TruncRem(i, 1000) == i % 1000;
    HundredsShape(i % 1000);
  }

  lemma OneThousandWords(i: int)
    requires 1000 <= i < 2000
    ensures var rw := if i % 1000 > 0 then HundredsWords(i % 1000) else "";
      JoinWords(ThousandsWords(i / 1000), rw) == (if i % 1000 == 0 then "Mil" else "Mil " + HundredsWords(i % 1000)) &&
      JoinWords(ThousandsWords(i / 1000), rw)[..3] == "Mil"
  {
    assert ThousandsWords(i / 1000) == "Mil";
    HundredsShape(i % 1000);
  }

  predicate EndsWith(s: string, suffix: string) {
    |suffix| <= |s| && s[|s| - |suffix|..] == suffix
  }

  /** 0 and 100 are special-cased as "Cero" and "Cien", with no currency
      word. */
  lemma SpecialAmounts()
    ensures Spelled(0.0) == "Cero" && Spelled(100.0) == "Cien"
    ensures !EndsWith(Spelled(0.0), " Pesos") && !EndsWith(Spelled(100.0), " Pesos")
  {
  }

  lemma PesosEnding(w: string)
    ensures EndsWith(w + " Pesos", " Pesos")
    ensures !EndsWith(w + " Pesos", " Centavos")
  {
    var s := w + " Pesos";
    assert s[|s| - 6..] == " Pesos";
    assert |s| >= 9 ==> s[|s| - 5] == 'P';
  }

  lemma CentavosEnding(p: string, h: string)
    ensures (p + " Con " + h + " Centavos")[..|p|] == p
    ensures EndsWith(p + " Con " + h + " Centavos", " Centavos")
    ensures !EndsWith(p + " Con " + h + " Centavos", " Pesos")
  {
    var s := p + " Con " + h + " Centavos";
    assert s[|s| - 9..] == " Centavos";
    assert s[|s| - 5] == 't';
  }

  /** Outside 0 and 100 the text is the integer phrase followed by
      " Pesos"; it ends there exactly when there are no cents, and
      otherwise ends with the " Con ... Centavos" clause. */
  lemma CurrencySuffix(i: int, c: int)
    requires i < 1000000 && 0 <= c <= 100
    ensures var p := IntegerWords(i) + " Pesos";
      |p| <= |AmountWords(i, c)| && AmountWords(i, c)[..|p|] == p
    ensures EndsWith(AmountWords(i, c), " Pesos") <==> c == 0
    ensures EndsWith(AmountWords(i, c), " Centavos") <==> c > 0
  {
    var w := IntegerWords(i);
    if c > 0 {
      var h := HundredsWords(c);
      assert AmountWords(i, c) == (w + " Pesos") + " Con " + h + " Centavos";
      CentavosEnding(w + " Pesos", h);
    } else {
      assert AmountWords(i, c) == w + " Pesos";
      PesosEnding(w);
    }
  }

  /** How an amount is split: a whole number of pesos other than 0 and 100
      reads as its integer phrase followed by " Pesos", and an amount with
      two decimals keeps its cents. */
  lemma TwoDecimalSpelled(k: int, c: int)
    requires 0 <= c < 100 && k < 1000000
    requires k as real + c as real / 100.0 != 0.0 && k as real + c as real / 100.0 != 100.0
    ensures Spelled(k as real + c as real / 100.0) == AmountWords(k, c)
  {
    TwoDecimalAmount(k, c);
  }

  /** Below one peso (and for negative amounts, which nothing rejects) the
      integer phrase is empty, so the text starts with " Pesos" and has no
      "Cero". */
  lemma NoIntegerPart(i: int, c: int)
    requires i <= 0 && 0 <= c <= 100
    ensures AmountWords(i, c) == " Pesos" + CentsClause(c)
  {
    IntegerWordsShape(i);
  }

  /** A typical rate: 4100 pesos reads "Cuatro Mil Cien Pesos", with the
      short "Cien" inside a larger amount. */
  lemma ExampleRate()
    ensures Spelled(4100.0) == "Cuatro Mil Cien Pesos"
  {
    TwoDecimalSpelled(4100, 0);
    assert HundredsWords(4) == "Cuatro";
    assert ThousandsWords(4) == "Cuatro Mil";
    assert IntegerWords(4100) == "Cuatro Mil Cien";
    assert CentsClause(0) == "";
  }

  /** Half a peso has no integer phrase: " Pesos Con Cincuenta Centavos". */
  lemma ExampleFraction()
    ensures Spelled(0.5) == " Pesos Con Cincuenta Centavos"
  {
    TwoDecimalSpelled(0, 50);
    assert IntegerWords(0) == "";
    FiftyCents("");
  }

  lemma FiftyCents(w: string)
    ensures w + " Pesos" + CentsClause(50) == w + " Pesos Con Cincuenta Centavos"
  {
    FiftyCentsClause();
    var p, c := " Pesos", " Con Cincuenta Centavos";
    assert p + c == " Pesos Con Cincuenta Centavos";
    assert w + p + c == w + (p + c);
  }

  lemma FiftyCentsClause()
    ensures CentsClause(50) == " Con Cincuenta Centavos"
  {
    assert TwoDigitWords(50) == Tens[5];
    assert HundredsWords(50) == "Cincuenta";
  }
}
