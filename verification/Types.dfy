/** Identities, money and results shared by every part of the enrolment engine. */
module CampaignTypes {

  type Item = string
  type Sku = string

  /** One physical SKU of one product. */
  datatype Pair = Pair(item: Item, sku: Sku)

  /** Money in cents of a yuan. */
  type Cents = int

  /** A closed time window; the fixed-width time strings compare like numbers. */
  datatype Window = Window(start: int, end: int) {
    predicate Overlaps(other: Window) {
      start <= other.end && other.start <= end
    }
  }

  datatype Option<+T> = None | Some(value: T)

  /** The Python code's return value or raised error code. */
  datatype Result<+T> = Ok(value: T) | Err(error: string)

  predicate NoDuplicates<T(==)>(s: seq<T>) {
    forall i, j :: 0 <= i < j < |s| ==> s[i] != s[j]
  }

  function SetOf<T>(s: seq<T>): set<T> {
    set x | x in s
  }

  /** The elements of s that satisfy p, in order. */
  function Filter<T>(s: seq<T>, p: T -> bool): (r: seq<T>)
    ensures |r| <= |s|
  {
    if s == [] then []
    else (if p(s[0]) then [s[0]] else []) + Filter(s[1..], p)
  }

  lemma {:induction false} FilterMembers<T(!new)>(s: seq<T>, p: T -> bool)
    ensures forall x :: x in Filter(s, p) <==> x in s && p(x)
  {
    if s != [] {
      FilterMembers(s[1..], p);
    }
  }

  lemma SetOfAppend<T>(s: seq<T>, x: T)
    ensures SetOf(s + [x]) == SetOf(s) + {x}
  {
  }

  lemma AppendDistinct<T>(s: seq<T>, x: T)
    requires NoDuplicates(s) && x !in s
    ensures NoDuplicates(s + [x])
  {
  }

  /** All of some stand in all, and in the same order. */
  ghost predicate InOrder<T>(some: seq<T>, all: seq<T>) {
    && (forall x :: x in some ==> x in all)
    && forall i, j, a, b :: (0 <= i < j < |some| && 0 <= a < |all| && 0 <= b < |all| && all[a] == some[i]
                             && all[b] == some[j]) ==> a < b
  }

  lemma NothingInOrder<T>(all: seq<T>)
    ensures InOrder([], all)
  {
  }

  /** The last element of all, or nothing, is appended. */
  lemma OrderGrows<T>(some: seq<T>, all: seq<T>, more: seq<T>)
    requires all != [] && NoDuplicates(all) && InOrder(some, all[..|all| - 1])
    requires more == [] || more == [all[|all| - 1]]
    ensures InOrder(some + more, all)
  {
    var n, longer := |all| - 1, some + more;
    forall x | x in longer ensures x in all {
      assert x in more ==> x == all[n];
    }
    forall i, j, a, b | 0 <= i < j < |longer| && 0 <= a < |all| && 0 <= b < |all| && all[a] == longer[i]
                        && all[b] == longer[j]
      ensures a < b
    {
      assert longer[i] == some[i] && some[i] in some;
      var c :| 0 <= c < n && all[c] == some[i];
      assert a == c;
      if j < |some| {
        assert longer[j] == some[j] && some[j] in some;
        var d :| 0 <= d < n && all[d] == some[j];
        assert b == d && all[..n][a] == some[i] && all[..n][b] == some[j];
      } else {
        assert longer[j] == all[n];
      }
    }
  }
}
