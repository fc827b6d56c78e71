/**
 * The pieces of Rust's standard library the image handlers rely on, stated
 * over `string` (a sequence of Unicode scalar values): `Path::file_stem` for
 * a directory entry name, `u64::to_string`, and the ordering of file names.
 */
module Text {

  /** The position of the last `c` in `s`, or -1 when `s` has none. */
  function LastIndexOf(s: string, c: char): (r: int)
    ensures -1 <= r < |s|
    ensures r == -1 <==> c !in s
    ensures 0 <= r ==> s[r] == c && c !in s[r + 1..]
    decreases |s|
  {
    if |s| == 0 then -1
    else if s[|s| - 1] == c then |s| - 1
    else
      assert s == s[..|s| - 1] + [s[|s| - 1]];
      LastIndexOf(s[..|s| - 1], c)
  }

  /**
   * A name `read_dir` can return: not empty, no separator, and neither `.`
   * nor `..` (for those `file_stem` would give `None`).
   */
  predicate IsEntryName(name: string) {
    name != "" && '/' !in name && name != "." && name != ".."
  }

  /**
   * `Path::new(name).file_stem()` for an entry name: the whole name when it
   * has no `.` after its first character, otherwise the text before its
   * last `.`.
   */
  function FileStem(name: string): (stem: string)
    requires IsEntryName(name)
    ensures stem != "" && stem <= name
    ensures stem == name <==> '.' !in name[1..]
    ensures stem != name ==> name[|stem|] == '.' && '.' !in name[|stem| + 1..]
  {
    var i := LastIndexOf(name, '.');
    if i > 0 then
      assert name[1..][i - 1] == '.';
      name[..i]
    else
      name
  }

  /** The name `upload_image` gives a stored image: the stem, then `.jpg`. */
  lemma StemOfJpg(base: string)
    requires base != "" && '.' !in base && '/' !in base
    ensures IsEntryName(base + ".jpg")
    ensures FileStem(base + ".jpg") == base
  {
  }

  /** The ASCII digit of `d`. */
  function DigitChar(d: nat): (c: char)
    requires d < 10
    ensures '0' <= c <= '9'
  {
    "0123456789"[d]
  }

  predicate IsDigits(s: string) {
    forall i | 0 <= i < |s| :: '0' <= s[i] <= '9'
  }

  /** `n.to_string()`: the decimal digits of `n`, without leading zeros. */
  function NatToString(n: nat): (s: string)
    ensures s != "" && IsDigits(s)
    ensures s[0] == '0' ==> s == "0"
    decreases n
  {
    if n < 10 then [DigitChar(n)] else NatToString(n / 10) + [DigitChar(n % 10)]
  }

  /** The number a string of decimal digits denotes. */
  function DecimalValue(s: string): nat
    requires IsDigits(s)
  {
    if s == "" then 0
    else DecimalValue(s[..|s| - 1]) * 10 + (s[|s| - 1] as int - '0' as int)
  }

  /** `to_string` keeps the value: reading the digits back gives `n`. */
  lemma {:induction false} NatToStringRoundTrip(n: nat)
    ensures DecimalValue(NatToString(n)) == n
    decreases n
  {
    var s := NatToString(n);
    if n < 10 {
      assert s[..|s| - 1] == "";
    } else {
      NatToStringRoundTrip(n / 10);
      assert s[..|s| - 1] == NatToString(n / 10);
    }
  }

  /** Digits contain neither `.` nor `/`. */
  lemma DigitsHaveNoDot(s: string)
    requires IsDigits(s)
    ensures '.' !in s && '/' !in s
  {
  }

  /** `a` and `b` agree up to some index where `a` has the smaller character. */
  ghost predicate DiffersLower(a: string, b: string) {
    exists k | 0 <= k < |a| && k < |b| :: a[..k] == b[..k] && a[k] < b[k]
  }

  lemma DiffersLowerDrop(a: string, b: string)
    requires a != "" && b != "" && a[0] == b[0] && DiffersLower(a, b)
    ensures DiffersLower(a[1..], b[1..])
  {
    var k :| 0 <= k < |a| && k < |b| && a[..k] == b[..k] && a[k] < b[k];
    assert k != 0;
    var a', b' := a[1..], b[1..];
    assert a'[..k - 1] == a[..k][1..] && b'[..k - 1] == b[..k][1..];
    assert a'[k - 1] == a[k] && b'[k - 1] == b[k];
  }

  lemma DiffersLowerAdd(a: string, b: string)
    requires a != "" && b != "" && a[0] == b[0] && DiffersLower(a[1..], b[1..])
    ensures DiffersLower(a, b)
  {
    var a', b' := a[1..], b[1..];
    var k :| 0 <= k < |a'| && k < |b'| && a'[..k] == b'[..k] && a'[k] < b'[k];
    assert a[..k + 1] == [a[0]] + a'[..k] && b[..k + 1] == [b[0]] + b'[..k];
    assert a[k + 1] == a'[k] && b[k + 1] == b'[k];
  }

  /** A common first character neither creates nor removes a first difference. */
  lemma DiffersLowerTail(a: string, b: string)
    requires a != "" && b != "" && a[0] == b[0]
    ensures DiffersLower(a, b) <==> DiffersLower(a[1..], b[1..])
  {
    if DiffersLower(a, b) { DiffersLowerDrop(a, b); }
    if DiffersLower(a[1..], b[1..]) { DiffersLowerAdd(a, b); }
  }

  /**
   * The order `file_name().cmp(..)` sorts by: lexicographic on scalar values
   * (the order of their UTF-8 bytes), a proper prefix coming first.
   */
  predicate NameLe(a: string, b: string)
    decreases |a|
  {
    a == "" || (b != "" && (a[0] < b[0] || (a[0] == b[0] && NameLe(a[1..], b[1..]))))
  }

  /**
   * `NameLe` is the lexicographic order: `a` is a prefix of `b`, or the two
   * agree up to a first difference where `a` has the smaller character.
   */
  lemma {:induction false} NameLeIsLexicographic(a: string, b: string)
    ensures NameLe(a, b) <==> a <= b || DiffersLower(a, b)
    decreases |a|
  {
    if a != "" && b != "" {
      if a[0] != b[0] {
        assert forall k | 0 < k < |a| && k < |b| :: a[..k][0] == a[0] && b[..k][0] == b[0];
        assert a[..0] == b[..0];
      } else {
        assert a <= b <==> a[1..] <= b[1..];
        DiffersLowerTail(a, b);
        NameLeIsLexicographic(a[1..], b[1..]);
      }
    }
  }

  lemma {:induction false} NameLeTotal(a: string, b: string)
    ensures NameLe(a, b) || NameLe(b, a)
    decreases |a|
  {
    if a != "" && b != "" && a[0] == b[0] {
      NameLeTotal(a[1..], b[1..]);
    }
  }

  lemma {:induction false} NameLeAntisymmetric(a: string, b: string)
    requires NameLe(a, b) && NameLe(b, a)
    ensures a == b
    decreases |a|
  {
    if a != "" {
      NameLeAntisymmetric(a[1..], b[1..]);
      assert a == [a[0]] + a[1..] && b == [b[0]] + b[1..];
    }
  }

  lemma {:induction false} NameLeTransitive(a: string, b: string, c: string)
    requires NameLe(a, b) && NameLe(b, c)
    ensures NameLe(a, c)
    decreases |a|
  {
    if a != "" && a[0] == b[0] && b[0] == c[0] {
      NameLeTransitive(a[1..], b[1..], c[1..]);
    }
  }
}
