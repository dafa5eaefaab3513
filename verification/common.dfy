/** Identifiers, optional values and the list filters that EcoChat applies to
    lists of ids (`list.filter(id => id.toString() !== x.toString())`). */
module Common {

  /** Ids are compared by their string form throughout the system. */
  type UserId = string
  type GroupId = string
  type MessageId = string
  type SocketId = string
  /** Dates are opaque: the model only stores and compares them. */
  type Timestamp = int

  datatype Option<+T> = None | Some(value: T)

  /** An HTTP reply of a REST controller: status code and the `message` field
      of its JSON body. */
  datatype HttpReply = HttpReply(code: nat, message: string)

  ghost predicate NoDuplicates<T>(s: seq<T>) {
    forall i, j :: 0 <= i < j < |s| ==> s[i] != s[j]
  }

  /** `s.filter(keep)`: the elements that pass, in their order. */
  function Filter<T>(s: seq<T>, keep: T -> bool): (r: seq<T>)
    ensures |r| <= |s|
    ensures forall i :: 0 <= i < |r| ==> keep(r[i])
  {
    if s == [] then []
    else Filter(s[..|s| - 1], keep) + (if keep(s[|s| - 1]) then [s[|s| - 1]] else [])
  }

  lemma {:induction false} FilterMembership<T>(s: seq<T>, keep: T -> bool, y: T)
    ensures y in Filter(s, keep) <==> y in s && keep(y)
  {
    if s != [] {
      FilterMembership(s[..|s| - 1], keep, y);
      assert s == s[..|s| - 1] + [s[|s| - 1]];
    }
  }

  /** The filter distributes over concatenation, so the elements it keeps
      stay in their relative order. */
  lemma {:induction false} FilterAppend<T>(a: seq<T>, b: seq<T>, keep: T -> bool)
    ensures Filter(a + b, keep) == Filter(a, keep) + Filter(b, keep)
  {
    if b != [] {
      var b' := b[..|b| - 1];
      assert (a + b)[..|a + b| - 1] == a + b';
      assert (a + b)[|a + b| - 1] == b[|b| - 1];
      FilterAppend(a, b', keep);
    } else {
      assert a + b == a;
    }
  }

  lemma FilterMembershipAll<T>(s: seq<T>, keep: T -> bool)
    ensures forall y :: y in Filter(s, keep) <==> y in s && keep(y)
  {
    forall y { FilterMembership(s, keep, y); }
  }

  /** Every element that passes is kept as often as it occurs; every other
      element is dropped entirely. */
  lemma {:induction false} FilterCount<T>(s: seq<T>, keep: T -> bool, y: T)
    ensures multiset(Filter(s, keep))[y] == if keep(y) then multiset(s)[y] else 0
  {
    if s != [] {
      FilterCount(s[..|s| - 1], keep, y);
      assert s == s[..|s| - 1] + [s[|s| - 1]];
    }
  }

  lemma FilterCountAll<T>(s: seq<T>, keep: T -> bool)
    ensures forall y :: keep(y) ==> multiset(Filter(s, keep))[y] == multiset(s)[y]
  {
    forall y { FilterCount(s, keep, y); }
  }

  /** A list whose elements all pass is its own filter. */
  lemma {:induction false} FilterAllKept<T>(s: seq<T>, keep: T -> bool)
    requires forall i :: 0 <= i < |s| ==> keep(s[i])
    ensures Filter(s, keep) == s
  {
    if s != [] {
      FilterAllKept(s[..|s| - 1], keep);
      assert s == s[..|s| - 1] + [s[|s| - 1]];
    }
  }

  /** The test `y => y !== x`. */
  function NotEqualTo<T(==)>(x: T): T -> bool {
    y => y != x
  }

  /** `s.filter(y => y !== x)`: every occurrence of `x` dropped, the rest kept in order. */
  function Without<T(==)>(s: seq<T>, x: T): (r: seq<T>)
    ensures |r| <= |s|
    ensures x !in r
  {
    FilterMembership(s, NotEqualTo(x), x);
    Filter(s, NotEqualTo(x))
  }

  lemma WithoutMembership<T>(s: seq<T>, x: T, y: T)
    ensures y in Without(s, x) <==> y in s && y != x
  {
    FilterMembership(s, NotEqualTo(x), y);
  }

  /** Filtering out an absent id changes nothing. */
  lemma WithoutAbsent<T>(s: seq<T>, x: T)
    requires x !in s
    ensures Without(s, x) == s
  {
    FilterAllKept(s, NotEqualTo(x));
  }

  lemma WithoutAppend<T>(a: seq<T>, b: seq<T>, x: T)
    ensures Without(a + b, x) == Without(a, x) + Without(b, x)
  {
    FilterAppend(a, b, NotEqualTo(x));
  }

  /** The filter keeps every other element exactly as often as before. */
  lemma WithoutCount<T>(s: seq<T>, x: T, y: T)
    requires y != x
    ensures multiset(Without(s, x))[y] == multiset(s)[y]
  {
    FilterCount(s, NotEqualTo(x), y);
  }

  /** The filter drops exactly the occurrences of `x`. */
  lemma {:induction false} WithoutLength<T>(s: seq<T>, x: T)
    ensures |Without(s, x)| + multiset(s)[x] == |s|
  {
    if s != [] {
      WithoutLength(s[..|s| - 1], x);
      assert s == s[..|s| - 1] + [s[|s| - 1]];
    }
  }

  /** A list without repeats holds each of its elements exactly once. */
  lemma {:induction false} NoDuplicatesCount<T>(s: seq<T>, x: T)
    requires NoDuplicates(s)
    ensures multiset(s)[x] == if x in s then 1 else 0
  {
    if s != [] {
      var init := s[..|s| - 1];
      assert NoDuplicates(init);
      NoDuplicatesCount(init, x);
      assert s == init + [s[|s| - 1]];
      assert s[|s| - 1] !in init;
    }
  }

  lemma {:induction false} WithoutNoDuplicates<T>(s: seq<T>, x: T)
    requires NoDuplicates(s)
    ensures NoDuplicates(Without(s, x))
  {
    if s != [] {
      var init := s[..|s| - 1];
      assert NoDuplicates(init);
      WithoutNoDuplicates(init, x);
      WithoutMembership(init, x, s[|s| - 1]);
      assert s[|s| - 1] !in init;
    }
  }

  /** `if (!list.includes(x)) list.push(x)` */
  function AppendIfAbsent<T(==)>(s: seq<T>, x: T): (r: seq<T>)
    ensures x in r
    ensures x in s ==> r == s
    ensures x !in s ==> |r| == |s| + 1 && r[..|s|] == s
  {
    if x in s then s else s + [x]
  }

  /** The list keeps every element it had, gains only `x`, and never gets a
      duplicate. */
  lemma AppendIfAbsentElements<T>(s: seq<T>, x: T)
    ensures var r := AppendIfAbsent(s, x);
      && (forall i :: 0 <= i < |r| ==> r[i] in s || r[i] == x)
      && (forall i :: 0 <= i < |s| ==> s[i] in r)
      && (NoDuplicates(s) ==> NoDuplicates(r))
  {
    var r := AppendIfAbsent(s, x);
    if x !in s {
      assert r == s + [x];
    }
  }
}
