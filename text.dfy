/** String helpers with PHP's meaning: explode, implode, basename's suffix rule, strcmp order. */
module Text {

  /** Number of occurrences of `c` in `s`. */
  function Count(s: string, c: char): (n: nat)
    ensures n <= |s|
    ensures n == 0 <==> c !in s
  {
    if |s| == 0 then 0 else (if s[0] == c then 1 else 0) + Count(s[1..], c)
  }

  /** PHP `explode(sep, s)` for a one-character separator: the pieces between separators, never empty. */
  function Split(s: string, sep: char): (pieces: seq<string>)
    ensures |pieces| >= 1
  {
    if |s| == 0 then [""]
    else
      var rest := Split(s[1..], sep);
      if s[0] == sep then [""] + rest else [[s[0]] + rest[0]] + rest[1..]
  }

  /** PHP `implode(sep, parts)`. */
  function Join(parts: seq<string>, sep: string): string
  {
    if |parts| == 0 then ""
    else if |parts| == 1 then parts[0]
    else parts[0] + sep + Join(parts[1..], sep)
  }

  predicate StartsWith(s: string, prefix: string) {
    |prefix| <= |s| && s[..|prefix|] == prefix
  }

  predicate EndsWith(s: string, suffix: string) {
    |suffix| <= |s| && s[|s| - |suffix|..] == suffix
  }

  /** The suffix rule of PHP `basename($name, $suffix)`: cut the suffix off when the name is longer than it and ends with it. */
  function StripSuffix(name: string, suffix: string): (r: string)
    ensures EndsWith(name, suffix) && |name| > |suffix| ==> r + suffix == name
    ensures !(EndsWith(name, suffix) && |name| > |suffix|) ==> r == name
  {
    if EndsWith(name, suffix) && |name| > |suffix| then name[..|name| - |suffix|] else name
  }

  /** PHP `basename` of a name that does not end with `sep`: the text after its last `sep`. */
  function LastPiece(s: string, sep: char): (r: string)
    ensures sep !in r
    ensures sep !in s ==> r == s
    decreases |s|
  {
    if sep !in s then s
    else if sep !in s[1..] then s[1..]
    else LastPiece(s[1..], sep)
  }

  /** Whatever precedes the last separator is cut away. */
  lemma {:induction false} LastPieceAfter(a: string, sep: char, b: string)
    requires sep !in b
    ensures LastPiece(a + [sep] + b, sep) == b
    decreases |a|
  {
    var s := a + [sep] + b;
    assert s[|a|] == sep;
    if |a| == 0 {
      assert s[1..] == b;
    } else {
      assert s[1..] == a[1..] + [sep] + b;
      assert s[1..][|a| - 1] == sep;
      LastPieceAfter(a[1..], sep, b);
    }
  }

  /** PHP truthiness of a string: only "" and "0" are false. */
  predicate Truthy(s: string) {
    s != "" && s != "0"
  }

  /** Byte-wise `strcmp(a, b) < 0`, the order PHP uses for non-numeric string keys. */
  predicate LexLess(a: string, b: string) {
    if |a| == 0 then |b| > 0
    else if |b| == 0 then false
    else if a[0] != b[0] then a[0] < b[0]
    else LexLess(a[1..], b[1..])
  }

  /** Strictly increasing in strcmp order (hence also free of duplicates). */
  predicate StrictlySorted(s: seq<string>) {
    forall i, j :: 0 <= i < j < |s| ==> LexLess(s[i], s[j])
  }

  lemma {:induction false} SplitCount(s: string, sep: char)
    ensures |Split(s, sep)| == Count(s, sep) + 1
  {
    if |s| > 0 {
      SplitCount(s[1..], sep);
    }
  }

  lemma {:induction false} SplitWithoutSeparator(s: string, sep: char)
    requires sep !in s
    ensures Split(s, sep) == [s]
  {
    if |s| > 0 {
      assert sep !in s[1..];
      SplitWithoutSeparator(s[1..], sep);
      assert [s[0]] + s[1..] == s;
    }
  }

  lemma {:induction false} SplitAfterPiece(a: string, sep: char, b: string)
    requires sep !in a
    ensures Split(a + [sep] + b, sep) == [a] + Split(b, sep)
  {
    if |a| == 0 {
      assert a + [sep] + b == [sep] + b;
      assert ([sep] + b)[1..] == b;
    } else {
      var s := a + [sep] + b;
      assert s[0] == a[0] && s[1..] == a[1..] + [sep] + b;
      assert sep !in a[1..];
      SplitAfterPiece(a[1..], sep, b);
      assert [a[0]] + a[1..] == a;
    }
  }

  /** The number a run of decimal digits denotes. */
  function DigitsValue(digits: string): nat
    requires forall i :: 0 <= i < |digits| ==> '0' <= digits[i] <= '9'
  {
    if |digits| == 0 then 0
    else DigitsValue(digits[..|digits| - 1]) * 10 + (digits[|digits| - 1] - '0') as int
  }

  /** `explode` undoes `implode` when no part holds the separator. */
  lemma {:induction false} SplitJoin(parts: seq<string>, sep: char)
    requires |parts| >= 1
    requires forall i :: 0 <= i < |parts| ==> sep !in parts[i]
    ensures Split(Join(parts, [sep]), sep) == parts
  {
    if |parts| == 1 {
      SplitWithoutSeparator(parts[0], sep);
    } else {
      SplitJoin(parts[1..], sep);
      SplitAfterPiece(parts[0], sep, Join(parts[1..], [sep]));
      assert [parts[0]] + parts[1..] == parts;
    }
  }

  lemma {:induction false} LexLessIrreflexive(a: string)
    ensures !LexLess(a, a)
  {
    if |a| > 0 {
      LexLessIrreflexive(a[1..]);
    }
  }

  lemma {:induction false} LexLessTransitive(a: string, b: string, c: string)
    requires LexLess(a, b) && LexLess(b, c)
    ensures LexLess(a, c)
  {
    if |a| > 0 && |b| > 0 && |c| > 0 && a[0] == b[0] && b[0] == c[0] {
      LexLessTransitive(a[1..], b[1..], c[1..]);
    }
  }

  lemma {:induction false} LexLessTotal(a: string, b: string)
    requires a != b
    ensures LexLess(a, b) || LexLess(b, a)
  {
    if |a| > 0 && |b| > 0 && a[0] == b[0] {
      assert a == [a[0]] + a[1..] && b == [b[0]] + b[1..];
      LexLessTotal(a[1..], b[1..]);
    }
  }

  lemma LexLessAsymmetric(a: string, b: string)
    requires LexLess(a, b)
    ensures !LexLess(b, a)
  {
    if LexLess(b, a) {
      LexLessTransitive(a, b, a);
      LexLessIrreflexive(a);
    }
  }

  /** `m` is the strcmp-least element of `names`. */
  predicate IsLeast(m: string, names: set<string>) {
    m in names && forall x :: x in names && x != m ==> LexLess(m, x)
  }

  /** Adding one name to a set keeps its least element or makes the new name least. */
  lemma LeastOfAdded(rest: set<string>, y: string, m: string)
    requires IsLeast(m, rest) && y !in rest
    ensures IsLeast(m, rest + {y}) || IsLeast(y, rest + {y})
  {
    LexLessTotal(m, y);
    if !LexLess(m, y) {
      forall x | x in rest + {y} && x != y
        ensures LexLess(y, x)
      {
        if x != m {
          LexLessTransitive(y, m, x);
        }
      }
    }
  }

  /** Every finite set of strings has a strcmp-least element. */
  lemma {:induction false} LeastExists(names: set<string>)
    requires names != {}
    ensures exists m :: IsLeast(m, names)
  {
    var y :| y in names;
    var rest := names - {y};
    assert rest + {y} == names;
    if rest == {} {
      assert IsLeast(y, names);
    } else {
      LeastExists(rest);
      var m :| IsLeast(m, rest);
      LeastOfAdded(rest, y, m);
    }
  }

  /** Concatenation regroups; stated once so that callers need not prove it element by element. */
  lemma AppendAssoc<T>(a: seq<T>, b: seq<T>, c: seq<T>)
    ensures (a + b) + c == a + (b + c)
  {
  }

  lemma HeadIn(s: seq<string>)
    ensures |s| > 0 ==> s[0] in s
  {
  }

  /** Two strictly sorted sequences with the same elements are equal: a sorted listing is determined by its set. */
  lemma {:induction false} StrictlySortedUnique(s: seq<string>, t: seq<string>)
    requires StrictlySorted(s) && StrictlySorted(t)
    requires forall x :: x in s <==> x in t
    ensures s == t
  {
    if |s| == 0 || |t| == 0 {
      HeadIn(s);
      HeadIn(t);
    } else {
      assert s[0] in s;
      assert t != [];
      assert t[0] in t;
      if s[0] != t[0] {
        var i :| 0 <= i < |t| && t[i] == s[0];
        var j :| 0 <= j < |s| && s[j] == t[0];
        assert LexLess(t[0], s[0]) by { assert 0 < i; }
        assert LexLess(s[0], t[0]) by { assert 0 < j; }
        LexLessAsymmetric(s[0], t[0]);
      }
      forall x ensures x in s[1..] <==> x in t[1..] {
        if x in s[1..] {
          var i :| 1 <= i < |s| && s[i] == x;
          assert LexLess(s[0], x);
          LexLessIrreflexive(x);
          assert x in s;
          assert x in t;
          var k :| 0 <= k < |t| && t[k] == x;
          assert k != 0;
          assert t[1..][k - 1] == x;
        }
        if x in t[1..] {
          var i :| 1 <= i < |t| && t[i] == x;
          assert LexLess(t[0], x);
          LexLessIrreflexive(x);
          assert x in t;
          assert x in s;
          var k :| 0 <= k < |s| && s[k] == x;
          assert k != 0;
          assert s[1..][k - 1] == x;
        }
      }
      StrictlySortedUnique(s[1..], t[1..]);
      assert s == [s[0]] + s[1..] && t == [t[0]] + t[1..];
    }
  }
  /** The elements of a finite set of strings in strcmp order, as `sort` or `glob` list them. */
  ghost function SortedList(names: set<string>): (r: seq<string>)
    ensures StrictlySorted(r)
    ensures forall x :: x in r <==> x in names
    decreases |names|
  {
    if names == {} then []
    else
      LeastExists(names);
      var m :| IsLeast(m, names);
      var rest := SortedList(names - {m});
      assert forall j :: 0 <= j < |rest| ==> LexLess(m, rest[j]) by {
        forall j | 0 <= j < |rest| ensures LexLess(m, rest[j]) {
          assert rest[j] in names - {m};
        }
      }
      [m] + rest
  }

  /** Picks the least remaining name until none is left. */
  method SortStrings(names: set<string>) returns (r: seq<string>)
    ensures r == SortedList(names)
  {
    var pending := names;
    r := [];
    while pending != {}
      invariant StrictlySorted(r)
      invariant forall x :: x in r <==> x in names && x !in pending
      invariant pending <= names
      invariant forall a, b :: a in r && b in pending ==> LexLess(a, b)
      decreases |pending|
    {
      LeastExists(pending);
      var m :| IsLeast(m, pending);
      r := r + [m];
      pending := pending - {m};
    }
    StrictlySortedUnique(r, SortedList(names));
  }
}
