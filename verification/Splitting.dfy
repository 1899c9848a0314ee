/**
 `String.prototype.split` with a one-character separator and `Array.prototype.join`,
 over sequences of any element type (bytes of a log, characters of an address or of a
 dotted key).
 */
module Splitting {

  /** The pieces between separators; always at least one, as in JavaScript. */
  function Split<T(==)>(s: seq<T>, sep: T): (parts: seq<seq<T>>)
    ensures |parts| >= 1
    ensures forall k :: 0 <= k < |parts| ==> sep !in parts[k]
  {
    if s == [] then [[]]
    else if s[0] == sep then [[]] + Split(s[1..], sep)
    else
      var rest := Split(s[1..], sep);
      [[s[0]] + rest[0]] + rest[1..]
  }

  function Join<T>(parts: seq<seq<T>>, sep: T): seq<T>
  {
    if |parts| == 0 then []
    else if |parts| == 1 then parts[0]
    else parts[0] + [sep] + Join(parts[1..], sep)
  }

  /** Every part followed by the separator. */
  function Terminated<T>(parts: seq<seq<T>>, sep: T): seq<T>
  {
    if parts == [] then [] else parts[0] + [sep] + Terminated(parts[1..], sep)
  }

  /** Concatenation is associative and `[]` is neutral, as facts to call where `+` chains get long. */
  lemma ConcatFacts<T>(a: seq<T>, b: seq<T>, c: seq<T>)
    ensures a + b + c == a + (b + c) && a + [] == a && [] + a == a
  {
  }

  lemma SliceFacts<T>(s: seq<T>, t: seq<T>, i: nat, j: nat)
    requires i <= j <= |s|
    ensures (s + t)[i..j] == s[i..j]
    ensures s[i..j] + s[j..] == s[i..|s|] == s[i..]
  {
  }

  lemma SnocFacts<T>(s: seq<T>, x: T, t: seq<T>)
    requires t != []
    ensures var p := s + [x]; p[..|p| - 1] == s && p[|p| - 1] == x
    ensures s + t == s + t[..|t| - 1] + [t[|t| - 1]]
  {
  }

  lemma {:induction false} SplitWithout<T>(s: seq<T>, sep: T)
    requires sep !in s
    ensures Split(s, sep) == [s]
  {
    if s == [] {
    } else {
      SplitWithout(s[1..], sep);
      assert [s[0]] + s[1..] == s;
    }
  }

  /** A piece without separators, then a separator, then anything. */
  lemma {:induction false} SplitStep<T>(p: seq<T>, sep: T, s: seq<T>)
    requires sep !in p
    ensures Split(p + [sep] + s, sep) == [p] + Split(s, sep)
  {
    if p == [] {
      assert p + [sep] + s == [sep] + s;
    } else {
      SplitStep(p[1..], sep, s);
      assert (p + [sep] + s)[1..] == p[1..] + [sep] + s;
      assert [p[0]] + p[1..] == p;
    }
  }

  /** Joining undoes splitting. */
  lemma {:induction false} JoinOfSplit<T>(s: seq<T>, sep: T)
    ensures Join(Split(s, sep), sep) == s
  {
    if s == [] {
    } else {
      JoinOfSplit(s[1..], sep);
      var rest := Split(s[1..], sep);
      if s[0] == sep {
        assert ([[]] + rest)[1..] == rest;
        assert Join([[]] + rest, sep) == [sep] + s[1..];
      } else {
        var all := [[s[0]] + rest[0]] + rest[1..];
        assert all[1..] == rest[1..];
        assert Join(all, sep) == [s[0]] + Join(rest, sep);
      }
    }
  }

  /** Splitting undoes joining, for pieces that do not contain the separator. */
  lemma {:induction false} SplitOfJoin<T>(parts: seq<seq<T>>, sep: T)
    requires |parts| >= 1
    requires forall k :: 0 <= k < |parts| ==> sep !in parts[k]
    ensures Split(Join(parts, sep), sep) == parts
  {
    if |parts| == 1 {
      SplitWithout(parts[0], sep);
    } else {
      SplitOfJoin(parts[1..], sep);
      SplitStep(parts[0], sep, Join(parts[1..], sep));
    }
  }

  lemma {:induction false} SplitCons<T>(x: T, s: seq<T>, sep: T)
    ensures Split([x] + s, sep) == if x == sep then [[]] + Split(s, sep)
                                   else [[x] + Split(s, sep)[0]] + Split(s, sep)[1..]
  {
    assert ([x] + s)[1..] == s;
  }

  /** Splitting in two chunks: only the last piece of the first chunk is still open. */
  predicate SplitsAcross<T(==)>(a: seq<T>, b: seq<T>, sep: T) {
    var p := Split(a, sep);
    Split(a + b, sep) == p[..|p| - 1] + Split(p[|p| - 1] + b, sep)
  }

  lemma {:induction false} SplitConcat<T>(a: seq<T>, b: seq<T>, sep: T)
    ensures SplitsAcross(a, b, sep)
  {
    if a == [] {
      SplitEmpty(b, sep);
    } else {
      SplitConcat(a[1..], b, sep);
      SplitConcatStep(a[0], a[1..], b, sep);
      HeadOfConcat(a, b);
    }
  }

  lemma SplitEmpty<T>(b: seq<T>, sep: T)
    ensures SplitsAcross([], b, sep)
  {
    assert [] + b == b;
  }

  lemma SplitConcatStep<T>(x: T, a: seq<T>, b: seq<T>, sep: T)
    requires SplitsAcross(a, b, sep)
    ensures SplitsAcross([x] + a, b, sep)
  {
    assert [x] + a + b == [x] + (a + b);
    SplitCons(x, a, sep);
    SplitCons(x, a + b, sep);
    SplitConcatCons(x, Split(a, sep), b, sep);
  }

  lemma HeadOfConcat<T>(a: seq<T>, b: seq<T>)
    requires a != []
    ensures [a[0]] + a[1..] == a && [a[0]] + (a[1..] + b) == a + b
  {
  }

  /** The bookkeeping of `SplitConcat`: one more character in front of the first piece. */
  lemma {:induction false} SplitConcatCons<T>(x: T, rest: seq<seq<T>>, b: seq<T>, sep: T)
    requires |rest| >= 1
    ensures var p := if x == sep then [[]] + rest else [[x] + rest[0]] + rest[1..];
            var q := rest[..|rest| - 1] + Split(rest[|rest| - 1] + b, sep);
            p[..|p| - 1] + Split(p[|p| - 1] + b, sep)
            == if x == sep then [[]] + q else [[x] + q[0]] + q[1..]
  {
    if x == sep {
      SepInFront(rest, Split(rest[|rest| - 1] + b, sep));
    } else if |rest| == 1 {
      SplitCons(x, rest[0] + b, sep);
      assert [x] + rest[0] + b == [x] + (rest[0] + b);
    } else {
      CharInFront(x, rest, Split(rest[|rest| - 1] + b, sep));
    }
  }

  lemma SepInFront<T>(rest: seq<seq<T>>, more: seq<seq<T>>)
    requires rest != []
    ensures var p := [[]] + rest;
            p[..|p| - 1] + more == [[]] + (rest[..|rest| - 1] + more) && p[|p| - 1] == rest[|rest| - 1]
  {
  }

  lemma CharInFront<T>(x: T, rest: seq<seq<T>>, more: seq<seq<T>>)
    requires |rest| >= 2
    ensures var p, q := [[x] + rest[0]] + rest[1..], rest[..|rest| - 1] + more;
            p[..|p| - 1] + more == [[x] + q[0]] + q[1..] && p[|p| - 1] == rest[|rest| - 1]
  {
  }

  /** A split is the terminated pieces followed by the open one. */
  lemma {:induction false} SplitIsTerminated<T>(s: seq<T>, sep: T)
    ensures var p := Split(s, sep);
            s == Terminated(p[..|p| - 1], sep) + p[|p| - 1]
  {
    var p := Split(s, sep);
    if s == [] {
    } else {
      SplitIsTerminated(s[1..], sep);
      var rest := Split(s[1..], sep);
      if s[0] == sep {
        assert p[..|p| - 1] == [[]] + rest[..|rest| - 1];
      } else if |rest| > 1 {
        assert p[..|p| - 1] == [[s[0]] + rest[0]] + rest[1..|rest| - 1];
        assert rest[..|rest| - 1][1..] == rest[1..|rest| - 1];
      }
    }
  }

  /** Every element of a join is the separator or comes from a piece. */
  lemma {:induction false} ElementsOfJoin<T>(parts: seq<seq<T>>, sep: T)
    ensures forall x :: x in Join(parts, sep) ==> x == sep || exists k :: 0 <= k < |parts| && x in parts[k]
    ensures |parts| >= 2 ==> sep in Join(parts, sep)
  {
    if |parts| >= 2 {
      ElementsOfJoin(parts[1..], sep);
      var rest := Join(parts[1..], sep);
      forall x | x in Join(parts, sep)
        ensures x == sep || exists k :: 0 <= k < |parts| && x in parts[k]
      {
        if x in rest && x != sep {
          var k :| 0 <= k < |parts| - 1 && x in parts[1..][k];
          assert x in parts[k + 1];
        }
      }
      assert Join(parts, sep)[|parts[0]|] == sep;
    }
  }
}
