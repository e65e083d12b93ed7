/** The string functions the source takes from Go's strings package. */
module Text {
  function LowerChar(c: char): char {
    if 'A' <= c <= 'Z' then c - 'A' + 'a' else c
  }

  /** strings.ToLower, over the ASCII letters. */
  function ToLower(s: string): (r: string)
    ensures |r| == |s| && forall i | 0 <= i < |s| :: r[i] == LowerChar(s[i])
  {
    if s == "" then "" else [LowerChar(s[0])] + ToLower(s[1..])
  }

  /** The capital letters become the small ones, in the alphabet's order, and nothing else changes. */
  lemma LowerLetters(i: nat, c: char)
    ensures var capitals, small := "ABCDEFGHIJKLMNOPQRSTUVWXYZ", "abcdefghijklmnopqrstuvwxyz";
            && (i < 26 ==> LowerChar(capitals[i]) == small[i])
            && (c !in capitals ==> LowerChar(c) == c)
  {
    var capitals := "ABCDEFGHIJKLMNOPQRSTUVWXYZ";
    if 'A' <= c <= 'Z' { assert capitals[c as int - 'A' as int] == c; }
  }

  lemma LowerTwice(s: string)
    ensures ToLower(ToLower(s)) == ToLower(s)
  {
  }

  /** unicode.IsSpace. */
  predicate IsSpace(c: char) {
    || '\t' <= c <= '\r' || c == ' ' || c == '\U{85}' || c == '\U{A0}' || c == '\U{1680}'
    || '\U{2000}' <= c <= '\U{200A}' || c == '\U{2028}' || c == '\U{2029}' || c == '\U{202F}'
    || c == '\U{205F}' || c == '\U{3000}'
  }

  /** The space characters, by code point. */
  lemma SpaceCodePoints(c: char)
    ensures IsSpace(c) <==>
            var n := c as int;
            n in {9, 10, 11, 12, 13, 32, 133, 160, 5760, 8232, 8233, 8239, 8287, 12288} || 8192 <= n <= 8202
  {
  }

  predicate Trimmed(s: string) {
    s == "" || (!IsSpace(s[0]) && !IsSpace(s[|s| - 1]))
  }

  /** strings.TrimSpace. */
  function TrimSpace(s: string): (r: string)
    ensures Trimmed(r) && |r| <= |s|
    ensures Trimmed(s) ==> r == s
    ensures forall c | c in r :: c in s
    decreases |s|
  {
    if s == "" then ""
    else if IsSpace(s[0]) then TrimSpace(s[1..])
    else if IsSpace(s[|s| - 1]) then TrimSpace(s[..|s| - 1])
    else s
  }

  predicate AllSpace(s: string) { forall c | c in s :: IsSpace(c) }

  /** All the space around a trimmed string comes off, and nothing else. */
  lemma {:induction false} TrimmedMiddle(left: string, middle: string, right: string)
    requires AllSpace(left) && AllSpace(right) && Trimmed(middle)
    ensures TrimSpace(left + middle + right) == middle
    decreases |left| + |right|
  {
    var s := left + middle + right;
    if left != "" {
      assert s[0] == left[0];
      assert s[1..] == left[1..] + middle + right;
      TrimmedMiddle(left[1..], middle, right);
    } else if right != "" {
      var n := |right| - 1;
      assert s[|s| - 1] == right[n];
      if middle == "" {
        assert s[0] == right[0];
        assert s[1..] == "" + middle + right[1..];
        TrimmedMiddle("", middle, right[1..]);
      } else {
        assert s[0] == middle[0];
        assert s[..|s| - 1] == "" + middle + right[..n];
        TrimmedMiddle("", middle, right[..n]);
      }
    } else {
      assert s == middle;
    }
  }

  /** strings.Compare(a, b) <= 0. */
  predicate StringLe(a: string, b: string) {
    a == "" || (b != "" && (a[0] < b[0] || (a[0] == b[0] && StringLe(a[1..], b[1..]))))
  }

  /** The dictionary order: a prefix first, otherwise by the first character that differs. */
  lemma {:induction false} StringLeIsLexicographic(a: string, b: string)
    ensures StringLe(a, b) <==>
            a <= b || exists i | 0 <= i < |a| && i < |b| :: a[..i] == b[..i] && a[i] < b[i]
  {
    if a != "" && b != "" {
      StringLeIsLexicographic(a[1..], b[1..]);
      if a[0] == b[0] {
        SameHead(a, b);
      } else {
        FirstDiffers(a, b);
      }
    }
  }

  lemma FirstDiffers(a: string, b: string)
    requires a != "" && b != "" && a[0] != b[0]
    ensures forall i | 0 < i <= |a| && i <= |b| :: a[..i] != b[..i]
    ensures a[..0] == b[..0]
  {
    forall i | 0 < i <= |a| && i <= |b| ensures a[..i] != b[..i] {
      assert a[..i][0] == a[0] && b[..i][0] == b[0];
    }
  }

  lemma SameHead(a: string, b: string)
    requires a != "" && b != "" && a[0] == b[0]
    ensures a <= b <==> a[1..] <= b[1..]
    ensures (exists i | 0 <= i < |a| && i < |b| :: a[..i] == b[..i] && a[i] < b[i]) <==>
            (exists i | 0 <= i < |a[1..]| && i < |b[1..]| :: a[1..][..i] == b[1..][..i] && a[1..][i] < b[1..][i])
  {
    assert a == [a[0]] + a[1..] && b == [b[0]] + b[1..];
    forall i | 0 < i < |a| && i < |b| ensures a[..i] == b[..i] <==> a[1..][..i - 1] == b[1..][..i - 1] {
      assert a[..i] == [a[0]] + a[1..][..i - 1] && b[..i] == [b[0]] + b[1..][..i - 1];
    }
    if i :| 0 <= i < |a| && i < |b| && a[..i] == b[..i] && a[i] < b[i] {
      assert a[1..][..i - 1] == b[1..][..i - 1] && a[1..][i - 1] < b[1..][i - 1];
    }
    if i :| 0 <= i < |a[1..]| && i < |b[1..]| && a[1..][..i] == b[1..][..i] && a[1..][i] < b[1..][i] {
      assert a[..i + 1] == b[..i + 1] && a[i + 1] < b[i + 1];
    }
  }

  lemma {:induction false} StringLeTotal(a: string, b: string)
    ensures StringLe(a, b) || StringLe(b, a)
    ensures StringLe(a, b) && StringLe(b, a) ==> a == b
  {
    if a != "" && b != "" {
      StringLeTotal(a[1..], b[1..]);
      assert a == [a[0]] + a[1..] && b == [b[0]] + b[1..];
    }
  }

  lemma {:induction false} StringLeTransitive(a: string, b: string, c: string)
    requires StringLe(a, b) && StringLe(b, c)
    ensures StringLe(a, c)
  {
    if a != "" && a[0] == b[0] == c[0] { StringLeTransitive(a[1..], b[1..], c[1..]); }
  }
}
