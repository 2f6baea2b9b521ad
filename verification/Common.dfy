// Small notions shared by the models.

module Options {
  datatype Option<+T> = None | Some(value: T)
}

module Sequences {
  ghost predicate NoRepeat<T>(s: seq<T>) {
    forall i, j :: 0 <= i < j < |s| ==> s[i] != s[j]
  }

  // The first occurrence of x goes, as by list.remove.
  function Removed<T(==)>(s: seq<T>, x: T): seq<T> {
    if s == [] then [] else if s[0] == x then s[1..] else [s[0]] + Removed(s[1..], x)
  }

  lemma {:induction false} RemovedSplit<T>(s: seq<T>, x: T) returns (a: seq<T>, b: seq<T>)
    requires x in s
    ensures s == a + [x] + b && Removed(s, x) == a + b
  {
    if s[0] == x {
      a, b := [], s[1..];
    } else {
      a, b := RemovedSplit(s[1..], x);
      a := [s[0]] + a;
    }
  }

  /** Of several occurrences the first one goes. */
  lemma {:induction false} RemovedFirst<T>(s: seq<T>, x: T, i: nat)
    requires i < |s| && s[i] == x && x !in s[..i]
    ensures Removed(s, x) == s[..i] + s[i + 1..]
  {
    if i > 0 {
      assert s[..i][0] == s[0] && s[1..][..i - 1] == s[..i][1..];
      RemovedFirst(s[1..], x, i - 1);
      assert s[1..][i..] == s[i + 1..] && s[..i] == [s[0]] + s[..i][1..];
    }
  }

  lemma {:induction false} RemovedAbsent<T>(s: seq<T>, x: T)
    requires x !in s
    ensures Removed(s, x) == s
  {
    if s != [] {
      RemovedAbsent(s[1..], x);
    }
  }

  lemma NoRepeatCons<T>(x: T, r: seq<T>)
    requires NoRepeat(r) && x !in r
    ensures NoRepeat([x] + r)
  {
  }

  /** From a sequence without repeats, exactly x goes. */
  lemma {:induction false} RemovedOnce<T>(s: seq<T>, x: T)
    requires NoRepeat(s)
    ensures NoRepeat(Removed(s, x)) && forall y :: y in Removed(s, x) <==> y in s && y != x
  {
    if s != [] {
      assert s == [s[0]] + s[1..];
      if s[0] != x {
        RemovedOnce(s[1..], x);
        NoRepeatCons(s[0], Removed(s[1..], x));
      }
    }
  }
}

module Arithmetic {
  lemma OneMore(c: nat, x: nat)
    ensures (c + 1) * x == c * x + x
  {
  }
}

module Text {
  // What str.split and str.lstrip take for blank.
  predicate Whitespace(c: char) {
    c == ' ' || c == '\t' || c == '\n' || c == '\r' || c == '\U{000B}' || c == '\U{000C}'
  }
}
