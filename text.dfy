/**
 * The handful of Godot `String` operations the modelled code relies on:
 * `find`, `replace`, `split`, `join`, `begins_with`, `ends_with`,
 * `strip_edges` and `itos`. Godot's core/ustring.cpp is not part of this
 * model; these definitions follow its documented behaviour: `find` reports
 * the leftmost occurrence, `replace` rewrites non-overlapping occurrences from
 * left to right, and `strip_edges` drops characters up to and including
 * the space (code 32) at both ends.
 */
module Text {

  predicate OccursAt(s: string, key: string, i: nat)
  {
    i + |key| <= |s| && s[i..i + |key|] == key
  }

  predicate Contains(s: string, key: string)
  {
    exists i: nat | i <= |s| :: OccursAt(s, key, i)
  }

  predicate StartsWith(s: string, prefix: string)
  {
    |prefix| <= |s| && s[..|prefix|] == prefix
  }

  predicate EndsWith(s: string, suffix: string)
  {
    |suffix| <= |s| && s[|s| - |suffix|..] == suffix
  }

  /** Leftmost position at or after `from` where `key` occurs, or -1. */
  function FindFrom(s: string, key: string, from: nat): (r: int)
    requires |key| > 0
    ensures r == -1 || (from <= r && OccursAt(s, key, r))
    ensures r == -1 ==> forall j: nat :: from <= j ==> !OccursAt(s, key, j)
    ensures r != -1 ==> forall j: nat :: from <= j < r ==> !OccursAt(s, key, j)
    decreases |s| - from
  {
    if from + |key| > |s| then -1
    else if s[from..from + |key|] == key then from
    else FindFrom(s, key, from + 1)
  }

  function Find(s: string, key: string): (r: int)
    requires |key| > 0
    ensures r == -1 <==> !Contains(s, key)
    ensures r != -1 ==> 0 <= r && OccursAt(s, key, r)
  {
    FindFrom(s, key, 0)
  }

  /** `String::replace`: every non-overlapping occurrence of `key`, scanned from the left, becomes `with`. */
  function ReplaceAll(s: string, key: string, with: string): (r: string)
    requires |key| > 0
    decreases |s|
  {
    if |s| < |key| then s
    else if s[..|key|] == key then with + ReplaceAll(s[|key|..], key, with)
    else [s[0]] + ReplaceAll(s[1..], key, with)
  }

  lemma {:induction false} ReplaceAbsent(s: string, key: string, with: string)
    requires |key| > 0 && !Contains(s, key)
    ensures ReplaceAll(s, key, with) == s
    decreases |s|
  {
    if |s| >= |key| {
      assert !OccursAt(s, key, 0);
      forall i: nat ensures !OccursAt(s[1..], key, i) {
        assert !OccursAt(s, key, i + 1);
        if i + |key| <= |s| - 1 {
          assert s[1..][i..i + |key|] == s[i + 1..i + 1 + |key|];
        }
      }
      ReplaceAbsent(s[1..], key, with);
    }
  }

  /** A one-character key occurs exactly where its character does. */
  lemma CharAbsent(s: string, c: char)
    requires c !in s
    ensures !Contains(s, [c])
  {
    forall i: nat ensures !OccursAt(s, [c], i) {
      if i + 1 <= |s| { assert s[i..i + 1] == [s[i]]; }
    }
  }

  /** A single-character key is gone after the replacement when the replacement text does not hold it. */
  lemma {:induction false} ReplaceCharRemoves(s: string, c: char, with: string)
    requires c !in with
    ensures c !in ReplaceAll(s, [c], with)
    decreases |s|
  {
    if |s| >= 1 {
      ReplaceCharRemoves(s[1..], c, with);
    }
  }

  /** Replacing one character by another rewrites each occurrence in place and keeps every other character. */
  lemma {:induction false} ReplaceCharPointwise(s: string, c: char, d: char)
    ensures |ReplaceAll(s, [c], [d])| == |s|
    ensures forall k :: 0 <= k < |s| ==> ReplaceAll(s, [c], [d])[k] == if s[k] == c then d else s[k]
    decreases |s|
  {
    if |s| >= 1 {
      ReplaceCharPointwise(s[1..], c, d);
      assert s[..1] == [s[0]];
    }
  }

  /** A character other than the key's and the replacement's is kept or dropped exactly as in the input. */
  lemma {:induction false} ReplaceKeepsOthers(s: string, key: string, with: string, d: char)
    requires |key| > 0 && d !in key && d !in with
    ensures d in ReplaceAll(s, key, with) <==> d in s
    decreases |s|
  {
    if |s| >= |key| {
      if s[..|key|] == key {
        ReplaceKeepsOthers(s[|key|..], key, with, d);
        assert s == key + s[|key|..];
      } else {
        ReplaceKeepsOthers(s[1..], key, with, d);
        assert s == [s[0]] + s[1..];
      }
    }
  }

  /** `String::replace_first`: the leftmost occurrence of `key`, if any, becomes `with`. */
  function ReplaceFirst(s: string, key: string, with: string): (r: string)
    requires |key| > 0
    ensures !Contains(s, key) ==> r == s
    ensures Contains(s, key) ==> |r| == |s| - |key| + |with|
  {
    var i := Find(s, key);
    if i == -1 then s else s[..i] + with + s[i + |key|..]
  }

  /** `String::split` with empty pieces allowed: the pieces between occurrences of `sep`. */
  function Split(s: string, sep: string): (r: seq<string>)
    requires |sep| > 0
    ensures |r| >= 1
    decreases |s|
  {
    var i := Find(s, sep);
    if i == -1 then [s] else [s[..i]] + Split(s[i + |sep|..], sep)
  }

  /** `String::split` with empty pieces dropped. */
  function SplitNonEmpty(s: string, sep: string): (r: seq<string>)
    requires |sep| > 0
    ensures forall k :: 0 <= k < |r| ==> r[k] != ""
  {
    NonEmpty(Split(s, sep))
  }

  function NonEmpty(parts: seq<string>): (r: seq<string>)
    ensures forall k :: 0 <= k < |r| ==> r[k] != ""
    ensures |r| <= |parts|
  {
    if parts == [] then []
    else if parts[0] == "" then NonEmpty(parts[1..])
    else [parts[0]] + NonEmpty(parts[1..])
  }

  /** `Vector<String>` joined with a separator between consecutive items. */
  function Join(parts: seq<string>, sep: string): (r: string)
  {
    if parts == [] then ""
    else if |parts| == 1 then parts[0]
    else parts[0] + sep + Join(parts[1..], sep)
  }

  /** Splitting a joined list on a one-character separator that no item holds gives the list back. */
  lemma {:induction false} SplitJoin(parts: seq<string>, c: char)
    requires |parts| > 0
    requires forall k :: 0 <= k < |parts| ==> c !in parts[k]
    ensures Split(Join(parts, [c]), [c]) == parts
    decreases |parts|
  {
    var sep := [c];
    var s := Join(parts, sep);
    if |parts| == 1 {
      assert !Contains(s, sep) by {
        forall i: nat ensures !OccursAt(s, sep, i) {
          if i + 1 <= |s| { assert s[i..i + 1] == [s[i]]; }
        }
      }
    } else {
      var rest := Join(parts[1..], sep);
      assert s == parts[0] + sep + rest;
      var n := |parts[0]|;
      assert OccursAt(s, sep, n) by { assert s[n..n + 1] == sep; }
      forall j: nat | j < n ensures !OccursAt(s, sep, j) {
        assert s[j] == parts[0][j];
      }
      assert FindFrom(s, sep, 0) == n by { FindFirst(s, sep, n); }
      assert s[..n] == parts[0];
      assert s[n + 1..] == rest;
      SplitJoin(parts[1..], c);
    }
  }

  /** Appending an item to a non-empty list appends the separator and the item to its join. */
  lemma {:induction false} JoinSnoc(parts: seq<string>, x: string, sep: string)
    requires |parts| > 0
    ensures Join(parts + [x], sep) == Join(parts, sep) + sep + x
    decreases |parts|
  {
    if |parts| > 1 {
      assert (parts + [x])[1..] == parts[1..] + [x];
      JoinSnoc(parts[1..], x, sep);
    }
  }

  /** No piece of a split on a one-character separator holds that character. */
  lemma {:induction false} SplitLacksSeparator(s: string, c: char)
    ensures forall k :: 0 <= k < |Split(s, [c])| ==> c !in Split(s, [c])[k]
    decreases |s|
  {
    var sep := [c];
    var i := Find(s, sep);
    if i == -1 {
      forall j | 0 <= j < |s| ensures s[j] != c {
        if s[j] == c {
          assert OccursAt(s, sep, j) by { assert s[j..j + 1] == sep; }
        }
      }
    } else {
      forall j | 0 <= j < i ensures s[j] != c {
        assert !OccursAt(s, sep, j);
      }
      SplitLacksSeparator(s[i + 1..], c);
    }
  }

  /** Every piece `NonEmpty` keeps is one of its input's pieces. */
  lemma {:induction false} NonEmptyKeeps(parts: seq<string>, k: nat)
    requires k < |NonEmpty(parts)|
    ensures NonEmpty(parts)[k] in parts
    decreases |parts|
  {
    if parts[0] == "" {
      NonEmptyKeeps(parts[1..], k);
    } else if k > 0 {
      NonEmptyKeeps(parts[1..], k - 1);
    }
  }

  /** No piece of a split that drops empty pieces holds the one-character separator. */
  lemma SplitNonEmptyLacksSeparator(s: string, c: char)
    ensures forall k :: 0 <= k < |SplitNonEmpty(s, [c])| ==> c !in SplitNonEmpty(s, [c])[k]
  {
    SplitLacksSeparator(s, c);
    forall k | 0 <= k < |SplitNonEmpty(s, [c])| ensures c !in SplitNonEmpty(s, [c])[k] {
      NonEmptyKeeps(Split(s, [c]), k);
    }
  }

  lemma FindFirst(s: string, key: string, n: nat)
    requires |key| > 0 && OccursAt(s, key, n)
    requires forall j: nat :: j < n ==> !OccursAt(s, key, j)
    ensures FindFrom(s, key, 0) == n
  {
  }

  /** `strip_edges`: characters with code 32 or less are removed from both ends. */
  function StripEdges(s: string): (r: string)
    ensures r == [] || (r[0] > ' ' && r[|r| - 1] > ' ')
    ensures forall c :: c in r && c <= ' ' ==> c in s
    ensures forall c :: c in r ==> c in s
  {
    StripRight(StripLeft(s))
  }

  function StripLeft(s: string): (r: string)
    ensures r == [] || r[0] > ' '
    ensures |r| <= |s| && r == s[|s| - |r|..]
    decreases |s|
  {
    if s != [] && s[0] <= ' ' then StripLeft(s[1..]) else s
  }

  function StripRight(s: string): (r: string)
    ensures r == [] || r[|r| - 1] > ' '
    ensures |r| <= |s| && r == s[..|r|]
    decreases |s|
  {
    if s != [] && s[|s| - 1] <= ' ' then StripRight(s[..|s| - 1]) else s
  }

  function Digit(d: nat): (c: char)
    requires d < 10
    ensures '0' <= c <= '9'
  {
    "0123456789"[d]
  }

  /** `itos` on a non-negative value: its decimal digits, most significant first. */
  function NatToString(n: nat): (r: string)
    ensures |r| >= 1
    ensures forall k :: 0 <= k < |r| ==> '0' <= r[k] <= '9'
    ensures n < 10 <==> |r| == 1
  {
    if n < 10 then [Digit(n)] else NatToString(n / 10) + [Digit(n % 10)]
  }

  /** `itos` on any value: a minus sign before the digits of a negative one. */
  function IntToString(n: int): (r: string)
    ensures |r| >= 1
  {
    if n < 0 then "-" + NatToString(-n) else NatToString(n)
  }

  /** Distinct numbers print differently, so a numbered name is never reused. */
  lemma {:induction false} NatToStringInjective(a: nat, b: nat)
    requires NatToString(a) == NatToString(b)
    ensures a == b
  {
    var sa, sb := NatToString(a), NatToString(b);
    if a >= 10 && b >= 10 {
      assert sa[|sa| - 1] == Digit(a % 10) && sb[|sb| - 1] == Digit(b % 10);
      DigitInjective(a % 10, b % 10);
      assert sa[..|sa| - 1] == NatToString(a / 10);
      assert sb[..|sb| - 1] == NatToString(b / 10);
      NatToStringInjective(a / 10, b / 10);
    } else if a < 10 && b < 10 {
      DigitInjective(a, b);
    }
  }

  lemma DigitInjective(a: nat, b: nat)
    requires a < 10 && b < 10 && Digit(a) == Digit(b)
    ensures a == b
  {
  }
}
