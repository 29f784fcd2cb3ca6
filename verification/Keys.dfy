/** The dictionary keys as the text they are: no two of them can collide.
*/
module Keys {
  import opened Providers

  predicate IsDigit(c: char) {
    '0' <= c <= '9'
  }

  function Digit(n: nat): char
    requires n < 10
  {
    (n as char) + '0'
  }

  function Decimal(n: nat): (s: string)
    ensures s != "" && forall i :: 0 <= i < |s| ==> IsDigit(s[i])
  {
    if n < 10 then [Digit(n)] else Decimal(n / 10) + [Digit(n % 10)]
  }

  lemma {:induction false} DecimalIsInjective(m: nat, n: nat)
    requires Decimal(m) == Decimal(n)
    ensures m == n
  {
    var s, t := Decimal(m), Decimal(n);
    assert s[|s| - 1] == t[|t| - 1];
    assert s[|s| - 1] == Digit(m % 10) && t[|t| - 1] == Digit(n % 10);
    if m >= 10 && n >= 10 {
      assert s[..|s| - 1] == Decimal(m / 10) && t[..|t| - 1] == Decimal(n / 10);
      DecimalIsInjective(m / 10, n / 10);
    } else {
      assert m >= 10 ==> |s| > 1;
      assert n >= 10 ==> |t| > 1;
    }
  }

  /** `text` prints a list of roles, brackets and all. */
  function KeyText(k: Key, text: seq<string> -> string): string {
    match k
    case PrimaryKey => "primary"
    case AltKey => "alt"
    case RolesKey(roles) => text(roles)
    case MovedKey(roles, i) => text(roles) + "-" + Decimal(i)
  }

  ghost predicate PrintsLists(text: seq<string> -> string) {
    && (forall r :: text(r) != "" && text(r)[|text(r)| - 1] == ']')
    && forall r, s :: text(r) == text(s) ==> r == s
  }

  function LastChar(k: Key, text: seq<string> -> string): char
    requires KeyText(k, text) != ""
  {
    KeyText(k, text)[|KeyText(k, text)| - 1]
  }

  lemma LastCharTells(k: Key, text: seq<string> -> string)
    requires PrintsLists(text)
    ensures KeyText(k, text) != ""
    ensures match k
            case PrimaryKey => LastChar(k, text) == 'y'
            case AltKey => LastChar(k, text) == 't'
            case RolesKey(_) => LastChar(k, text) == ']'
            case MovedKey(_, _) => IsDigit(LastChar(k, text))
  {
    match k {
      case MovedKey(roles, i) =>
        var s, d := KeyText(k, text), Decimal(i);
        assert s[|s| - 1] == d[|d| - 1];
      case RolesKey(roles) => assert text(roles) != "";
      case _ =>
    }
  }

  /** The last hyphen divides roles and number. */
  lemma HyphenDivides(a: string, m: nat, b: string, n: nat)
    requires a + "-" + Decimal(m) == b + "-" + Decimal(n)
    ensures a == b && m == n
  {
    LastHyphen(a, Decimal(m), b, Decimal(n));
    DecimalIsInjective(m, n);
  }

  lemma LastHyphen(a: string, d: string, b: string, e: string)
    requires a + "-" + d == b + "-" + e && '-' !in d && '-' !in e
    ensures a == b && d == e
  {
    HyphenIsNoEarlier(a, d, b, e);
    HyphenIsNoEarlier(b, e, a, d);
    assert (a + "-" + d)[..|a|] == a && (b + "-" + e)[..|b|] == b;
    assert (a + "-" + d)[|a| + 1..] == d && (b + "-" + e)[|b| + 1..] == e;
  }

  lemma HyphenIsNoEarlier(a: string, d: string, b: string, e: string)
    requires a + "-" + d == b + "-" + e && '-' !in d
    ensures |b| <= |a|
  {
    var s := a + "-" + d;
    forall i | |a| < i < |s| ensures s[i] in d {
      assert s[i] == d[i - |a| - 1];
    }
    assert s[|b|] == (b + "-" + e)[|b|] == '-';
  }

  /** Distinct keys print distinct texts, so a dictionary keyed by text behaves as one
      keyed by what the text says. */
  lemma KeyTextIsInjective(j: Key, k: Key, text: seq<string> -> string)
    requires PrintsLists(text) && KeyText(j, text) == KeyText(k, text)
    ensures j == k
  {
    LastCharTells(j, text);
    LastCharTells(k, text);
    match (j, k) {
      case (MovedKey(r, m), MovedKey(s, n)) => HyphenDivides(text(r), m, text(s), n);
      case _ =>
    }
  }
}
