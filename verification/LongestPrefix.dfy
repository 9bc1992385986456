/** Longest-prefix lookup in a table keyed by prefixes, as an unordered scan with a running best. The
    empty prefix never wins: the running best starts at length zero and only a longer prefix beats it. */
module LongestPrefix {
  import opened Common

  /** p is a non-empty key of the table that starts the number. */
  predicate Matches<V>(table: map<string, V>, number: string, p: string) {
    p in table && p != "" && p <= number
  }

  ghost predicate IsLongest<V>(table: map<string, V>, number: string, p: string) {
    Matches(table, number, p) && forall q :: Matches(table, number, q) ==> |q| <= |p|
  }

  /** The result of a lookup: the longest match, or nothing when nothing matches. */
  ghost predicate IsLookup<V>(table: map<string, V>, number: string, r: Option<string>) {
    match r
    case Some(p) => IsLongest(table, number, p)
    case None => forall q :: !Matches(table, number, q)
  }

  /** Two prefixes of one number with the same length are the same: a lookup has one answer. */
  lemma LookupUnique<V>(table: map<string, V>, number: string, r: Option<string>, r': Option<string>)
    requires IsLookup(table, number, r) && IsLookup(table, number, r')
    ensures r == r'
  {
    if r.Some? && r'.Some? {
      assert Matches(table, number, r.value) && Matches(table, number, r'.value);
      assert r.value == number[..|r.value|] && r'.value == number[..|r'.value|];
    }
  }

  /** The scan, in whatever order the table is walked. */
  method Scan<V>(table: map<string, V>, number: string) returns (best: Option<string>)
    ensures IsLookup(table, number, best)
  {
    best := None;
    var longest := 0;
    var pending := table.Keys;
    while pending != {}
      invariant pending <= table.Keys
      invariant longest == if best.Some? then |best.value| else 0
      invariant best.Some? ==> Matches(table, number, best.value)
      invariant forall q :: Matches(table, number, q) && q !in pending ==> best.Some? && |q| <= |best.value|
      decreases pending
    {
      var prefix :| prefix in pending;
      pending := pending - {prefix};
      if prefix <= number && |prefix| > longest {
        longest := |prefix|;
        best := Some(prefix);
      }
    }
  }

  /** Some lookup exists for every table and number. */
  lemma LookupExists<V>(table: map<string, V>, number: string) returns (r: Option<string>)
    ensures IsLookup(table, number, r)
  {
    r := LongestUpTo(table, number, |number|);
  }

  lemma {:induction false} LongestUpTo<V>(table: map<string, V>, number: string, n: nat) returns (r: Option<string>)
    requires n <= |number|
    ensures match r
            case Some(p) => Matches(table, number, p) && |p| <= n && forall q :: Matches(table, number, q) && |q| <= n ==> |q| <= |p|
            case None => forall q :: Matches(table, number, q) ==> |q| > n
  {
    if n > 0 && number[..n] in table {
      r := Some(number[..n]);
    } else if n == 0 {
      r := None;
    } else {
      r := LongestUpTo(table, number, n - 1);
      forall q | Matches(table, number, q) && |q| <= n ensures |q| <= n - 1 {
        assert q == number[..|q|];
      }
    }
  }

  // ---------- Changing the table ----------

  /** The entry a lookup finds, as a value. */
  ghost function Found<V>(table: map<string, V>, number: string): (v: Option<V>)
    ensures forall r :: IsLookup(table, number, r) ==> v == (if r.Some? then Some(table[r.value]) else None)
  {
    if exists p :: IsLongest(table, number, p) then
      var p :| IsLongest(table, number, p);
      assert forall r :: IsLookup(table, number, r) ==> r == Some(p) by {
        forall r | IsLookup(table, number, r) ensures r == Some(p) {
          LookupUnique(table, number, r, Some(p));
        }
      }
      Some(table[p])
    else
      None
  }

  /** Adding or changing the entry of prefix p touches exactly the numbers that start with p (p not
      empty) and match nothing longer; those now find the new entry. */
  lemma UpdateTouchesOnly<V>(table: map<string, V>, p: string, v: V, number: string)
    ensures var table' := table[p := v];
            if p != "" && p <= number && forall q :: Matches(table, number, q) ==> |q| <= |p|
            then Found(table', number) == Some(v)
            else Found(table', number) == Found(table, number)
  {
    var table' := table[p := v];
    var r := LookupExists(table, number);
    if p != "" && p <= number && forall q :: Matches(table, number, q) ==> |q| <= |p| {
      assert IsLookup(table', number, Some(p));
    } else {
      if r.Some? {
        assert p == r.value ==> p != "" && p <= number;
      }
      assert forall q :: Matches(table', number, q) <==> Matches(table, number, q) || (q == p && p != "" && p <= number);
      assert IsLookup(table', number, r);
    }
  }

  /** Adding a prefix that was not in the table and removing it again restores every lookup. */
  lemma RemoveUndoesAdd<V>(table: map<string, V>, p: string, v: V, number: string)
    requires p !in table
    ensures table[p := v] - {p} == table
    ensures Found(table[p := v] - {p}, number) == Found(table, number)
  {
    assert table[p := v] - {p} == table;
  }

  /** r is the longest match shorter than p, or nothing when none is. */
  ghost predicate IsNextLongest<V>(table: map<string, V>, number: string, p: string, r: Option<string>) {
    match r
    case Some(q) =>
      Matches(table, number, q) && |q| < |p| && forall q' :: Matches(table, number, q') && |q'| < |p| ==> |q'| <= |q|
    case None => forall q' :: Matches(table, number, q') ==> |q'| >= |p|
  }

  /** Removing any prefix p touches exactly the numbers whose longest match it was: those fall back to
      their next-longest match, or to nothing. */
  lemma RemoveFallsBack<V>(table: map<string, V>, p: string, number: string) returns (r: Option<string>)
    ensures IsNextLongest(table, number, p, r)
    ensures Found(table - {p}, number) ==
            if IsLongest(table, number, p) then (if r.Some? then Some(table[r.value]) else None)
            else Found(table, number)
  {
    var table' := table - {p};
    r := NextLongest(table, number, p);
    assert forall q :: Matches(table', number, q) <==> Matches(table, number, q) && q != p;
    if IsLongest(table, number, p) {
      forall q | Matches(table, number, q) && q != p ensures |q| < |p| {
        assert q == number[..|q|] && p == number[..|p|];
      }
      assert IsLookup(table', number, r);
    } else {
      var found := LookupExists(table, number);
      assert IsLookup(table', number, found);
    }
  }

  lemma NextLongest<V>(table: map<string, V>, number: string, p: string) returns (r: Option<string>)
    ensures IsNextLongest(table, number, p, r)
  {
    if p == "" {
      r := None;
    } else {
      var bound := if |p| - 1 <= |number| then |p| - 1 else |number|;
      r := LongestUpTo(table, number, bound);
    }
  }
}
