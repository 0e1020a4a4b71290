/** Helpers shared by every service of the skill: optional values, thrown errors,
    the JavaScript arithmetic the services rely on, decimal rendering of numbers as
    template literals do it, and the language prefix of an Alexa locale. */
module Common {

  datatype Option<T> = None | Some(value: T)

  /** A value, or the message of the error the JavaScript code would throw. */
  datatype Result<T> = Ok(value: T) | Err(message: string)

  /** JavaScript's `%` on integers: the remainder truncates toward zero, so it takes
      the sign of the dividend. */
  function JsRem(a: int, b: int): (r: int)
    requires b > 0
    ensures -b < r < b
    ensures a >= 0 ==> r >= 0
    ensures a >= 0 ==> r == a % b
    ensures a < 0 ==> r == -((-a) % b)
  {
    if a >= 0 then a % b else -((-a) % b)
  }

  /** JavaScript's `Math.round`: the nearest integer, halves rounded up. */
  function JsRound(x: real): (r: int)
    ensures r as real - 0.5 <= x < r as real + 0.5
  {
    (x + 0.5).Floor
  }

  /** JavaScript's `%` on numbers, `x - y * trunc(x / y)`, for a non-negative
      dividend below twice the divisor (the only range the services use): the
      quotient truncates to 0 or 1. */
  function JsRealRem(x: real, y: real): (r: real)
    requires y > 0.0 && 0.0 <= x < 2.0 * y
    ensures 0.0 <= r < y
    ensures r == x || r == x - y
  {
    if x < y then x else x - y
  }

  function Digit(d: nat): (c: char)
    requires d < 10
    ensures '0' <= c <= '9'
  {
    ['0', '1', '2', '3', '4', '5', '6', '7', '8', '9'][d]
  }

  function DigitValue(c: char): (d: nat) {
    if '0' <= c <= '9' then (c as int - '0' as int) else 0
  }

  predicate IsDigits(s: string) {
    |s| > 0 && forall i :: 0 <= i < |s| ==> '0' <= s[i] <= '9'
  }

  /** A positive multiple of `n` is at least `n`. */
  lemma MulAtLeast(k: int, n: int)
    requires k >= 1 && n > 0
    ensures k * n >= n
  {
  }

  /** Division by a positive number has a unique quotient and remainder. */
  lemma ModUnique(x: int, n: int, q: int, r: int)
    requires n > 0 && x == q * n + r && 0 <= r < n
    ensures x % n == r
  {
    var q2, r2 := x / n, x % n;
    assert x == q2 * n + r2;
    if q2 > q {
      assert (q2 - q) * n == r - r2;
      MulAtLeast(q2 - q, n);
    } else if q2 < q {
      assert (q - q2) * n == r2 - r;
      MulAtLeast(q - q2, n);
    }
  }

  /** Adding the modulus leaves the remainder unchanged. */
  lemma ModCycle(a: nat, n: nat)
    requires n > 0
    ensures (a + n) % n == a % n
  {
    var q, r := a / n, a % n;
    assert a + n == (q + 1) * n + r;
    ModUnique(a + n, n, q + 1, r);
  }

  /** The decimal text a template literal produces for a non-negative integer. */
  function NatToString(n: nat): (s: string)
    ensures IsDigits(s)
    ensures |s| > 1 ==> s[0] != '0'
    ensures (n == 0) == (s == "0")
    decreases n
  {
    if n < 10 then [Digit(n)] else NatToString(n / 10) + [Digit(n % 10)]
  }

  /** The decimal text of any integer, with a leading `-` when negative. */
  function IntToString(n: int): (s: string)
    ensures |s| > 0
    ensures n >= 0 ==> s == NatToString(n)
    ensures n < 0 ==> s == "-" + NatToString(-n)
  {
    if n >= 0 then NatToString(n) else "-" + NatToString(-n)
  }

  /** `Number(s)` on a string of decimal digits. */
  function ParseNat(s: string): nat
    decreases |s|
  {
    if |s| == 0 then 0 else 10 * ParseNat(s[..|s| - 1]) + DigitValue(s[|s| - 1])
  }

  lemma DigitRoundTrip(d: nat)
    requires d < 10
    ensures DigitValue(Digit(d)) == d
  {
  }

  /** Reading back the decimal text of a number gives the number. */
  lemma {:induction false} ParseNatToString(n: nat)
    ensures ParseNat(NatToString(n)) == n
    decreases n
  {
    var s := NatToString(n);
    if n < 10 {
      DigitRoundTrip(n);
    } else {
      ParseNatToString(n / 10);
      DigitRoundTrip(n % 10);
      assert s[..|s| - 1] == NatToString(n / 10);
    }
  }

  /** The decimal rendering is injective: distinct numbers print differently. */
  lemma NatToStringInjective(m: nat, n: nat)
    requires NatToString(m) == NatToString(n)
    ensures m == n
  {
    ParseNatToString(m);
    ParseNatToString(n);
  }

  /** `s.split('-')[0]`: everything before the first dash. */
  function BeforeDash(s: string): (p: string)
    ensures '-' !in p
    ensures |p| <= |s| && p == s[..|p|]
    ensures |p| < |s| ==> s[|p|] == '-'
  {
    if |s| == 0 then ""
    else if s[0] == '-' then ""
    else [s[0]] + BeforeDash(s[1..])
  }

  /** What follows a dash-free piece and a dash is not part of the first piece. */
  lemma {:induction false} BeforeDashOfConcat(x: string, y: string)
    requires '-' !in x
    ensures BeforeDash(x + "-" + y) == x
    decreases |x|
  {
    if x != [] {
      assert (x + "-" + y)[1..] == x[1..] + "-" + y;
      BeforeDashOfConcat(x[1..], y);
    }
  }

  /** The three content languages of the skill. */
  datatype Lang = Ar | Fr | En

  /** A `{ ar, fr, en }` lookup object; a missing key yields `undefined`. */
  function LangOf(key: string): (r: Option<Lang>)
    ensures r == Some(Ar) <==> key == "ar"
    ensures r == Some(Fr) <==> key == "fr"
    ensures r == Some(En) <==> key == "en"
  {
    if key == "ar" then Some(Ar)
    else if key == "fr" then Some(Fr)
    else if key == "en" then Some(En)
    else None
  }

  /** The `langMap[lang] || 'ar'` idiom: a known language prefix, or Arabic. */
  function LangOrArabic(locale: string): (l: Lang)
    ensures LangOf(BeforeDash(locale)).None? ==> l == Ar
    ensures LangOf(BeforeDash(locale)) == Some(l) || l == Ar
  {
    match LangOf(BeforeDash(locale))
    case Some(l) => l
    case None => Ar
  }

  /** A text in the three languages, as the content tables store it. */
  datatype Texts = Texts(ar: string, fr: string, en: string) {
    function In(l: Lang): string {
      match l
      case Ar => ar
      case Fr => fr
      case En => en
    }
  }

  /** `x` occurs in `s` as a contiguous piece. */
  ghost predicate Infix(x: string, s: string) {
    exists i :: InfixAt(x, s, i)
  }

  predicate InfixAt(x: string, s: string, i: int) {
    0 <= i <= |s| - |x| && s[i..i + |x|] == x
  }

  lemma InfixOfConcat(a: string, x: string, b: string)
    ensures Infix(x, a + x + b)
  {
    var s := a + x + b;
    assert s[|a|..|a| + |x|] == x;
    assert InfixAt(x, s, |a|);
  }

  /** Both values spliced into a five-part text occur in it. */
  lemma InfixOfFive(a: string, x: string, b: string, y: string, c: string)
    ensures Infix(x, a + x + b + y + c) && Infix(y, a + x + b + y + c)
  {
    var s := a + x + b + y + c;
    assert s[|a|..|a| + |x|] == x;
    assert InfixAt(x, s, |a|);
    var k := |a| + |x| + |b|;
    assert s[k..k + |y|] == y;
    assert InfixAt(y, s, k);
  }

  /** An occurrence inside `a` is an occurrence inside `a + b`. */
  lemma InfixExtend(x: string, a: string, b: string)
    requires Infix(x, a)
    ensures Infix(x, a + b)
  {
    var i :| InfixAt(x, a, i);
    assert (a + b)[i..i + |x|] == a[i..i + |x|];
    assert InfixAt(x, a + b, i);
  }

  /** An occurrence inside `b` is an occurrence inside `a + b`. */
  lemma InfixPrepend(x: string, a: string, b: string)
    requires Infix(x, b)
    ensures Infix(x, a + b)
  {
    var i :| InfixAt(x, b, i);
    assert (a + b)[|a| + i..|a| + i + |x|] == b[i..i + |x|];
    assert InfixAt(x, a + b, |a| + i);
  }

  /** The pieces of a template literal, joined. */
  function Concat(ps: seq<string>): (r: string)
    ensures |ps| > 0 ==> ps[0] <= r
  {
    if ps == [] then "" else ps[0] + Concat(ps[1..])
  }

  /** Joining two lists of pieces is joining each and concatenating. */
  lemma {:induction false} ConcatAppend(a: seq<string>, b: seq<string>)
    ensures Concat(a + b) == Concat(a) + Concat(b)
    decreases |a|
  {
    if a == [] {
      assert a + b == b;
    } else {
      ConcatAppend(a[1..], b);
      assert (a + b)[1..] == a[1..] + b;
    }
  }

  /** Appending one piece to a template appends its text. */
  lemma ConcatPush(ps: seq<string>, x: string)
    ensures Concat(ps + [x]) == Concat(ps) + x
  {
    ConcatAppend(ps, [x]);
    assert Concat([x]) == x + Concat([]);
  }

  /** Every piece of a template occurs in the rendered text. */
  lemma {:induction false} ConcatHasPiece(ps: seq<string>, i: nat)
    requires i < |ps|
    ensures Infix(ps[i], Concat(ps))
    decreases i
  {
    if i == 0 {
      InfixOfConcat("", ps[0], Concat(ps[1..]));
      assert "" + ps[0] + Concat(ps[1..]) == Concat(ps);
    } else {
      ConcatHasPiece(ps[1..], i - 1);
      InfixPrepend(ps[i], ps[0], Concat(ps[1..]));
    }
  }

  lemma ConcatThree(a: string, b: string, c: string)
    ensures Concat([a, b, c]) == a + b + c
  {
    assert [a, b, c][1..] == [b, c];
    assert [b, c][1..] == [c];
    assert [c][1..] == [];
    assert Concat([c]) == c + Concat([]);
    assert Concat([b, c]) == b + Concat([c]);
  }

  /** Every run of consecutive pieces occurs in the rendered text. */
  lemma {:induction false} ConcatHasRun(ps: seq<string>, i: nat, j: nat)
    requires i <= j <= |ps|
    ensures Infix(Concat(ps[i..j]), Concat(ps))
    decreases i
  {
    if i == 0 {
      var front, back := ps[..j], ps[j..];
      assert ps == front + back;
      assert ps[i..j] == front;
      ConcatAppend(front, back);
      assert Concat(ps) == "" + Concat(front) + Concat(back);
      InfixOfConcat("", Concat(front), Concat(back));
    } else {
      var rest := ps[1..];
      assert rest[i - 1..j - 1] == ps[i..j];
      ConcatHasRun(rest, i - 1, j - 1);
      assert Concat(ps) == ps[0] + Concat(rest);
      InfixPrepend(Concat(ps[i..j]), ps[0], Concat(rest));
    }
  }

  lemma {:induction false} ConcatEndsWithLast(ps: seq<string>)
    requires |ps| > 0
    ensures var r := Concat(ps); |ps[|ps| - 1]| <= |r| && r[|r| - |ps[|ps| - 1]|..] == ps[|ps| - 1]
    decreases |ps|
  {
    if |ps| > 1 {
      ConcatEndsWithLast(ps[1..]);
      assert ps[1..][|ps| - 2] == ps[|ps| - 1];
    }
  }

  /** How a template literal renders an optional value: `undefined` when absent. */
  function OrUndefined(v: Option<string>): string {
    match v
    case Some(s) => s
    case None => "undefined"
  }
}

/** The five daily prayers and the names the services give them. */
module Prayers {
  import opened Common

  datatype Prayer = Fajr | Dhuhr | Asr | Maghrib | Isha

  /** The fixed order in which every service lists the prayers. */
  const Order: seq<Prayer> := [Fajr, Dhuhr, Asr, Maghrib, Isha]

  function English(p: Prayer): string {
    match p
    case Fajr => "Fajr"
    case Dhuhr => "Dhuhr"
    case Asr => "Asr"
    case Maghrib => "Maghrib"
    case Isha => "Isha"
  }

  /** The bare Arabic name, without the article. */
  function ArabicBare(p: Prayer): string {
    match p
    case Fajr => "فجر"
    case Dhuhr => "ظهر"
    case Asr => "عصر"
    case Maghrib => "مغرب"
    case Isha => "عشاء"
  }

  /** The Arabic name with the article, as the services display it. */
  function Arabic(p: Prayer): string {
    match p
    case Fajr => "الفجر"
    case Dhuhr => "الظهر"
    case Asr => "العصر"
    case Maghrib => "المغرب"
    case Isha => "العشاء"
  }

  /** The lower-case key the statistics and duaa services use. */
  function Key(p: Prayer): string {
    match p
    case Fajr => "fajr"
    case Dhuhr => "dhuhr"
    case Asr => "asr"
    case Maghrib => "maghrib"
    case Isha => "isha"
  }

  type MinuteOfDay = m: int | 0 <= m < 1440
  type SecondOfDay = s: int | 0 <= s < 86400

  /** A day's timings map (`Fajr`, `Sunrise`, `Dhuhr`, ...), each as `HH:mm` read as
      minutes since midnight. */
  datatype Timings = Timings(fajr: MinuteOfDay, sunrise: MinuteOfDay, dhuhr: MinuteOfDay,
                             asr: MinuteOfDay, maghrib: MinuteOfDay, isha: MinuteOfDay)
  {
    function Of(p: Prayer): MinuteOfDay {
      match p
      case Fajr => fajr
      case Dhuhr => dhuhr
      case Asr => asr
      case Maghrib => maghrib
      case Isha => isha
    }
  }

  lemma ArabicHasArticle(p: Prayer)
    ensures Arabic(p) == "ال" + ArabicBare(p)
  {
  }
}
