/** Datatypes shared by every module of the project, the order of texts, properties of prefixes, and white space. */
module Prelude {

  datatype Option<+T> = None | Some(value: T)

  datatype Result<+T, +E> = Ok(value: T) | Err(error: E)

  type Byte = b: int | 0 <= b < 256

  // A string of the program: it works on bytes.
  type Bytes = seq<Byte>

  // The order of strings.
  predicate TextLess(s: string, t: string) {
    if t == "" then false
    else if s == "" then true
    else s[0] < t[0] || (s[0] == t[0] && TextLess(s[1..], t[1..]))
  }

  // The texts first differ at i, where the first has the smaller character.
  predicate SmallerAt(s: string, t: string, i: nat) {
    i < |s| && i < |t| && s[..i] == t[..i] && s[i] < t[i]
  }

  lemma SmallerLater(s: string, t: string, i: nat)
    requires s != "" && t != ""
    ensures SmallerAt(s, t, i + 1) <==> s[0] == t[0] && SmallerAt(s[1..], t[1..], i)
  {
    if i < |s| - 1 && i < |t| - 1 {
      assert s[..i + 1] == [s[0]] + s[1..][..i] && t[..i + 1] == [t[0]] + t[1..][..i];
    }
  }

  /** A text is less than another exactly if it is its proper beginning, or has the smaller character at the first place
      where they differ. */
  lemma {:induction false} TextLessExactly(s: string, t: string)
    ensures TextLess(s, t) <==> s < t || exists i: nat :: SmallerAt(s, t, i)
    decreases |s|
  {
    if s != "" && t != "" {
      TextLessExactly(s[1..], t[1..]);
      assert s[0] < t[0] <==> SmallerAt(s, t, 0);
      assert s < t <==> s[0] == t[0] && s[1..] < t[1..];
      if TextLess(s, t) && s[0] == t[0] && !(s < t) {
        var i: nat :| SmallerAt(s[1..], t[1..], i);
        SmallerLater(s, t, i);
      }
      if i: nat :| SmallerAt(s, t, i) {
        if i > 0 {
          SmallerLater(s, t, i - 1);
          assert SmallerAt(s[1..], t[1..], i - 1);
        }
      }
    }
  }

  lemma {:induction false} TextLessTotal(s: string, t: string)
    ensures s == t || TextLess(s, t) || TextLess(t, s)
    ensures !(TextLess(s, t) && TextLess(t, s))
  {
    if s != "" && t != "" {
      TextLessTotal(s[1..], t[1..]);
      if s[1..] == t[1..] && s[0] == t[0] {
        assert s == [s[0]] + s[1..] && t == [t[0]] + t[1..];
      }
    }
  }

  lemma {:induction false} TextLessTransitive(s: string, t: string, u: string)
    requires TextLess(s, t) && TextLess(t, u)
    ensures TextLess(s, u)
  {
    if s != "" && s[0] == t[0] && t[0] == u[0] { TextLessTransitive(s[1..], t[1..], u[1..]); }
  }

  // If the property holds of the first j elements, then also of one more.
  ghost predicate GoesOn<T>(s: seq<T>, j: nat, p: seq<T> -> bool) {
    j < |s| && p(s[..j]) ==> p(s[..j + 1])
  }

  /** What holds of a prefix and is passed on from each prefix to the next holds of the whole. */
  lemma {:induction false} PassedOn<T>(s: seq<T>, k: nat, n: nat, p: seq<T> -> bool)
    requires k <= n <= |s| && p(s[..k])
    requires forall j: nat :: GoesOn(s, j, p)
    ensures p(s[..n])
    decreases n
  {
    if k < n {
      PassedOn(s, k, n - 1, p);
      assert GoesOn(s, n - 1, p);
    }
  }

  // The positions at which a test holds.
  function Where<T>(s: seq<T>, p: T -> bool): set<nat> {
    set i: nat | i < |s| && p(s[i])
  }

  lemma WhereOneMore<T>(s: seq<T>, x: T, p: T -> bool)
    ensures |Where(s + [x], p)| == |Where(s, p)| + if p(x) then 1 else 0
  {
    assert Where(s + [x], p) == Where(s, p) + if p(x) then {|s|} else {};
  }

  // unicode.IsSpace.
  predicate IsSpace(c: char) {
    var n := c as int;
    || 9 <= n <= 13 || n == 32 || n == 0x85 || n == 0xA0 || n == 0x1680 || 0x2000 <= n <= 0x200A
    || n == 0x2028 || n == 0x2029 || n == 0x202F || n == 0x205F || n == 0x3000
  }

  // strings.TrimSpace.
  function Trim(s: string): string {
    if s != [] && IsSpace(s[0]) then Trim(s[1..])
    else if s != [] && IsSpace(s[|s| - 1]) then Trim(s[..|s| - 1])
    else s
  }

  /** Trimming cuts white space off both ends, all of it and nothing else. */
  lemma {:induction false} TrimExactly(s: string) returns (i: nat, j: nat)
    ensures i <= j <= |s| && Trim(s) == s[i..j]
    ensures forall k | 0 <= k < i || j <= k < |s| :: IsSpace(s[k])
    ensures i < j ==> !IsSpace(s[i]) && !IsSpace(s[j - 1])
    decreases |s|
  {
    if s != [] && IsSpace(s[0]) {
      i, j := TrimExactly(s[1..]);
      i, j := i + 1, j + 1;
    } else if s != [] && IsSpace(s[|s| - 1]) {
      i, j := TrimExactly(s[..|s| - 1]);
    } else {
      i, j := 0, |s|;
    }
  }
}
