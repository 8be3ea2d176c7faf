/** The string work done on a single file name: os.path.splitext, str.lower
    and the "<base>_<n><ext>" names tried when a destination is taken
    (file_organizer.py:155-157, 169-173). */
module Filenames {

  /** Every character of s is a dot. */
  predicate AllDots(s: string) {
    forall i :: 0 <= i < |s| ==> s[i] == '.'
  }

  /** Position of the last '.' in s, or -1 when there is none (str.rfind). */
  function LastDot(s: string): (i: int)
    ensures -1 <= i < |s|
    ensures i >= 0 ==> s[i] == '.'
    ensures forall j :: i < j < |s| ==> s[j] != '.'
  {
    if |s| == 0 then -1
    else if s[|s| - 1] == '.' then |s| - 1
    else LastDot(s[..|s| - 1])
  }

  /** os.path.splitext on a base name: the extension runs from the last dot to
      the end, unless every character before that dot is a dot as well, in
      which case there is no extension (".bashrc", "..", "...x"). */
  function SplitExt(name: string): (parts: (string, string))
    ensures parts.0 + parts.1 == name
    ensures parts.1 != "" ==>
      parts.1[0] == '.' && !AllDots(parts.0) &&
      forall j :: 0 < j < |parts.1| ==> parts.1[j] != '.'
    ensures parts.1 == "" <==>
      forall i :: 0 <= i < |name| && name[i] == '.' ==> AllDots(name[..i])
  {
    var d := LastDot(name);
    if d >= 0 && !AllDots(name[..d]) then
      assert name[..d] + name[d..] == name;
      (name[..d], name[d..])
    else
      assert forall i :: 0 <= i <= d ==> name[..i] == name[..d][..i];
      (name, "")
  }

  /** str.lower restricted to ASCII letters. */
  function LowerChar(c: char): char {
    if 'A' <= c <= 'Z' then (c as int - 'A' as int + 'a' as int) as char else c
  }

  function Lower(s: string): (r: string)
    ensures |r| == |s|
    ensures forall i :: 0 <= i < |s| ==> r[i] == LowerChar(s[i])
  {
    if s == [] then [] else [LowerChar(s[0])] + Lower(s[1..])
  }

  /** The extension a file is classified by (file_organizer.py:156-157):
      splitext's extension, lower-cased (see ExtensionShape). */
  function Extension(name: string): (e: string)
  {
    Lower(SplitExt(name).1)
  }

  /** The extension is the lower-cased tail of the name from its extension
      dot, already in lower case, either empty or a dot followed by no other
      dot, and empty exactly when every dot of the name has only dots before
      it. */
  lemma ExtensionShape(name: string)
    ensures var e := Extension(name);
      |e| <= |name| && e == Lower(name[|name| - |e|..]) && Lower(e) == e &&
      (e == "" || (e[0] == '.' && forall j :: 0 < j < |e| ==> e[j] != '.')) &&
      (e == "" <==> forall i :: 0 <= i < |name| && name[i] == '.' ==> AllDots(name[..i]))
  {
    var ext := SplitExt(name).1;
    assert ext == name[|name| - |ext|..];
    LowerIdempotent(ext);
  }

  /** s holds no upper-case ASCII letter. */
  predicate NoUpper(s: string) {
    forall i :: 0 <= i < |s| ==> !('A' <= s[i] <= 'Z')
  }

  /** A string without upper-case letters is its own lower case. */
  lemma LowerOfNoUpper(s: string)
    requires NoUpper(s)
    ensures Lower(s) == s
  {
  }

  /** Lower-casing is idempotent: a lower-cased extension is its own lower case. */
  lemma LowerIdempotent(s: string)
    ensures Lower(Lower(s)) == Lower(s)
  {
    assert forall i :: 0 <= i < |s| ==> LowerChar(LowerChar(s[i])) == LowerChar(s[i]);
  }

  lemma LowerCharKeepsDot(c: char)
    ensures LowerChar(c) == '.' <==> c == '.'
  {
  }

  /** Lower-casing neither creates nor removes a dot. */
  lemma LowerKeepsDots(a: string, b: string)
    requires Lower(a) == Lower(b)
    ensures |a| == |b|
    ensures forall i :: 0 <= i < |a| ==> (a[i] == '.' <==> b[i] == '.')
  {
    forall i | 0 <= i < |a| ensures a[i] == '.' <==> b[i] == '.' {
      assert LowerChar(a[i]) == LowerChar(b[i]);
      LowerCharKeepsDot(a[i]);
      LowerCharKeepsDot(b[i]);
    }
  }

  /** Names with dots at the same places split at the same place. */
  lemma SameDotsSameSplit(a: string, b: string)
    requires |a| == |b|
    requires forall i :: 0 <= i < |a| ==> (a[i] == '.' <==> b[i] == '.')
    ensures |SplitExt(a).1| == |SplitExt(b).1|
  {
    var da, db := LastDot(a), LastDot(b);
    assert da == db;
    if da >= 0 {
      assert AllDots(a[..da]) <==> AllDots(b[..da]) by {
        assert forall i :: 0 <= i < da ==> a[..da][i] == a[i] && b[..da][i] == b[i];
      }
    }
  }

  /** Strings with the same lower case have suffixes of equal length with the
      same lower case. */
  lemma LowerSuffix(a: string, b: string, k: nat)
    requires Lower(a) == Lower(b) && k <= |a|
    ensures |a| == |b| && Lower(a[k..]) == Lower(b[k..])
  {
    assert Lower(a[k..]) == Lower(a)[k..];
    assert Lower(b[k..]) == Lower(b)[k..];
  }

  /** Two names that differ only in letter case have the same extension, so
      "Photo.JPG" and "photo.jpg" are classified alike. */
  lemma ExtensionIgnoresCase(a: string, b: string)
    requires Lower(a) == Lower(b)
    ensures Extension(a) == Extension(b)
  {
    LowerKeepsDots(a, b);
    SameDotsSameSplit(a, b);
    var k := |a| - |SplitExt(a).1|;
    assert SplitExt(a).1 == a[k..] && SplitExt(b).1 == b[k..];
    LowerSuffix(a, b, k);
  }

  /** Decimal digits of n, without leading zeros, as f"{n}" renders them. */
  function DecimalString(n: nat): (s: string)
    ensures |s| >= 1
    ensures forall i :: 0 <= i < |s| ==> '0' <= s[i] <= '9'
    ensures n > 0 ==> s[0] != '0'
    ensures |s| == 1 || s[0] != '0'
  {
    if n < 10 then ["0123456789"[n]]
    else DecimalString(n / 10) + ["0123456789"[n % 10]]
  }

  predicate IsDigits(s: string) {
    forall i :: 0 <= i < |s| ==> '0' <= s[i] <= '9'
  }

  /** The value of a string of decimal digits: the inverse of DecimalString. */
  function ParseDecimal(s: string): nat
    requires IsDigits(s)
  {
    if s == [] then 0
    else 10 * ParseDecimal(s[..|s| - 1]) + (s[|s| - 1] as int - '0' as int)
  }

  /** The digit character for d < 10 has value d. */
  lemma DigitValue(d: nat)
    requires d < 10
    ensures "0123456789"[d] as int - '0' as int == d
  {
  }

  lemma {:induction false} ParseDecimalString(n: nat)
    ensures ParseDecimal(DecimalString(n)) == n
  {
    var s := DecimalString(n);
    DigitValue(n % 10);
    if n >= 10 {
      assert s[..|s| - 1] == DecimalString(n / 10);
      ParseDecimalString(n / 10);
    }
  }

  lemma DecimalStringInjective(a: nat, b: nat)
    requires DecimalString(a) == DecimalString(b)
    ensures a == b
  {
    ParseDecimalString(a);
    ParseDecimalString(b);
  }

  /** The n-th name tried for a file whose destination is taken: the name
      itself for n = 0, and base + "_" + n + ext after that, with base and
      ext from SplitExt (file_organizer.py:165, 169-173). */
  function NumberedName(name: string, n: nat): (r: string)
    ensures n == 0 <==> r == name
  {
    if n == 0 then name
    else SplitExt(name).0 + "_" + DecimalString(n) + SplitExt(name).1
  }

  /** Distinct counters give distinct names, so each probe of the collision
      search looks at a path it has not seen before. */
  lemma NumberedNameInjective(name: string, a: nat, b: nat)
    requires NumberedName(name, a) == NumberedName(name, b)
    ensures a == b
  {
    var base, ext := SplitExt(name).0, SplitExt(name).1;
    if a != 0 && b != 0 {
      var sa, sb := NumberedName(name, a), NumberedName(name, b);
      var lo := |base| + 1;
      assert |DecimalString(a)| == |DecimalString(b)|;
      assert sa[lo..lo + |DecimalString(a)|] == DecimalString(a);
      assert sb[lo..lo + |DecimalString(b)|] == DecimalString(b);
      DecimalStringInjective(a, b);
    }
  }

  /** A renamed file keeps the original extension: "a.tar.gz" becomes
      "a.tar_1.gz", so it is classified as the original was. */
  lemma NumberedNameKeepsExtension(name: string, n: nat)
    ensures Extension(NumberedName(name, n)) == Extension(name)
  {
    NumberedNameKeepsSplit(name, n);
  }

  /** The split behind NumberedNameKeepsExtension: the extension found in a
      renamed file is the original's, letter for letter. */
  lemma NumberedNameKeepsSplit(name: string, n: nat)
    ensures SplitExt(NumberedName(name, n)).1 == SplitExt(name).1
  {
    if n > 0 {
      if SplitExt(name).1 == "" {
        NumberedNameKeepsNoExtension(name, n);
      } else {
        NumberedNameKeepsDotExtension(name, n);
      }
    }
  }

  lemma NumberedNameKeepsNoExtension(name: string, n: nat)
    requires n > 0 && SplitExt(name).1 == ""
    ensures SplitExt(NumberedName(name, n)).1 == ""
  {
    var tail := "_" + DecimalString(n);
    assert NumberedName(name, n) == name + tail;
    DotlessTailKeepsNoExtension(name, tail);
  }

  lemma NumberedNameKeepsDotExtension(name: string, n: nat)
    requires n > 0 && SplitExt(name).1 != ""
    ensures SplitExt(NumberedName(name, n)).1 == SplitExt(name).1
  {
    var stem := SplitExt(name).0 + "_" + DecimalString(n);
    assert NumberedName(name, n) == stem + SplitExt(name).1;
    assert !AllDots(stem) by { assert stem[|stem| - 1] != '.'; }
    ExtensionAfterStem(stem, SplitExt(name).1);
  }

  /** Appending characters other than dots to a name without an extension
      gives a name without an extension. */
  lemma DotlessTailKeepsNoExtension(base: string, tail: string)
    requires SplitExt(base).1 == ""
    requires forall j :: 0 <= j < |tail| ==> tail[j] != '.'
    ensures SplitExt(base + tail).1 == ""
  {
    var m := base + tail;
    forall i | 0 <= i < |m| && m[i] == '.' ensures AllDots(m[..i]) {
      assert i < |base| && base[i] == '.';
      assert m[..i] == base[..i];
    }
  }

  /** A dot followed by no other dot, after a stem that is not all dots, is
      the extension splitext finds. */
  lemma ExtensionAfterStem(stem: string, ext: string)
    requires |ext| > 0 && ext[0] == '.'
    requires forall j :: 0 < j < |ext| ==> ext[j] != '.'
    requires !AllDots(stem)
    ensures SplitExt(stem + ext).1 == ext
  {
    var m := stem + ext;
    assert m[|stem|] == '.';
    assert forall j :: |stem| < j < |m| ==> m[j] == ext[j - |stem|];
    assert LastDot(m) == |stem|;
    assert m[..|stem|] == stem;
  }
}
