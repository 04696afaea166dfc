/**
 * What the synthetic resolver promises, stated over its history alone: every
 * name that was ever given an address, and every use of a name. The cache of
 * dns.go is proved to answer exactly as this history does.
 */
module ResolverLog {
  import opened Sequences

  // ---- recency ----

  function Without(names: seq<string>, name: string): seq<string> {
    if names == [] then []
    else if names[0] == name then Without(names[1..], name)
    else [names[0]] + Without(names[1..], name)
  }

  /** The distinct names of a log of uses, most recently used first. */
  function Recent(uses: seq<string>): seq<string> {
    if uses == [] then []
    else [uses[|uses| - 1]] + Without(Recent(uses[..|uses| - 1]), uses[|uses| - 1])
  }

  function Front(names: seq<string>, bound: nat): seq<string> {
    if |names| <= bound then names else names[..bound]
  }

  /** The names remembered under a memory bound. */
  function Remembered(uses: seq<string>, bound: nat): (names: seq<string>)
    ensures |names| <= bound
  {
    Front(Recent(uses), bound)
  }

  predicate Distinct(names: seq<string>) {
    forall i, j | 0 <= i < j < |names| :: names[i] != names[j]
  }

  lemma {:induction false} WithoutMembers(names: seq<string>, name: string, x: string)
    ensures x in Without(names, name) <==> x in names && x != name
  {
    if names != [] {
      WithoutMembers(names[1..], name, x);
      assert x in names <==> x == names[0] || x in names[1..];
    }
  }

  lemma {:induction false} WithoutAbsent(names: seq<string>, name: string)
    requires name !in names
    ensures Without(names, name) == names
  {
    if names != [] {
      assert names[0] != name;
      WithoutAbsent(names[1..], name);
    }
  }

  lemma {:induction false} WithoutAt(names: seq<string>, i: nat)
    requires Distinct(names) && i < |names|
    ensures Without(names, names[i]) == names[..i] + names[i + 1..]
  {
    var tail := names[1..];
    if i == 0 {
      assert names[0] !in tail;
      WithoutAbsent(tail, names[0]);
    } else {
      assert tail[i - 1] == names[i];
      WithoutAt(tail, i - 1);
      assert [names[0]] + (tail[..i - 1] + tail[i..]) == names[..i] + names[i + 1..];
    }
  }

  lemma WithoutDistinct(names: seq<string>, name: string)
    requires Distinct(names)
    ensures Distinct(Without(names, name)) && name !in Without(names, name)
  {
    WithoutMembers(names, name, name);
    if name in names {
      var i :| 0 <= i < |names| && names[i] == name;
      WithoutAt(names, i);
    } else {
      WithoutAbsent(names, name);
    }
  }

  predicate ByLastUse(names: seq<string>, uses: seq<string>) {
    forall i, j | 0 <= i < j < |names| :: LastIndex(uses, names[i]) > LastIndex(uses, names[j])
  }

  lemma {:induction false} WithoutByLastUse(names: seq<string>, name: string, uses: seq<string>)
    requires ByLastUse(names, uses)
    ensures ByLastUse(Without(names, name), uses)
  {
    if names != [] {
      WithoutByLastUse(names[1..], name, uses);
      var rest := Without(names[1..], name);
      forall j | 0 <= j < |rest| ensures LastIndex(uses, names[0]) > LastIndex(uses, rest[j]) {
        WithoutMembers(names[1..], name, rest[j]);
        var k :| 0 <= k < |names[1..]| && names[1..][k] == rest[j];
        assert names[k + 1] == rest[j];
      }
    }
  }

  lemma {:induction false} RecentDistinct(uses: seq<string>)
    ensures Distinct(Recent(uses))
  {
    if uses != [] {
      RecentDistinct(uses[..|uses| - 1]);
      WithoutDistinct(Recent(uses[..|uses| - 1]), uses[|uses| - 1]);
    }
  }

  lemma {:induction false} RecentMembers(uses: seq<string>, x: string)
    ensures x in Recent(uses) <==> x in uses
  {
    if uses != [] {
      var earlier, name := uses[..|uses| - 1], uses[|uses| - 1];
      RecentMembers(earlier, x);
      WithoutMembers(Recent(earlier), name, x);
      assert uses == earlier + [name];
    }
  }

  lemma {:induction false} RecentOrdered(uses: seq<string>)
    ensures ByLastUse(Recent(uses), uses)
  {
    if uses != [] {
      var earlier, name := uses[..|uses| - 1], uses[|uses| - 1];
      var rest := Without(Recent(earlier), name);
      RecentOrdered(earlier);
      WithoutByLastUse(Recent(earlier), name, earlier);
      forall j | 0 <= j < |rest| ensures LastIndex(uses, rest[j]) == LastIndex(earlier, rest[j]) {
        WithoutMembers(Recent(earlier), name, rest[j]);
      }
    }
  }

  lemma InFront(names: seq<string>, bound: nat, i: nat)
    requires Distinct(names) && i < |names|
    ensures names[i] in Front(names, bound) <==> i < |Front(names, bound)|
    ensures i < |Front(names, bound)| ==> Front(names, bound)[i] == names[i]
  {
    var front := Front(names, bound);
    if names[i] in front {
      var k :| 0 <= k < |front| && front[k] == names[i];
      assert names[k] == names[i];
    }
  }

  lemma RecentBeyond(uses: seq<string>, bound: nat, x: string)
    requires x in uses && x !in Remembered(uses, bound)
    ensures |Remembered(uses, bound)| == bound
    ensures forall y | y in Remembered(uses, bound) :: LastIndex(uses, y) > LastIndex(uses, x)
  {
    var recent, names := Recent(uses), Remembered(uses, bound);
    RecentDistinct(uses);
    RecentOrdered(uses);
    RecentMembers(uses, x);
    var j :| 0 <= j < |recent| && recent[j] == x;
    InFront(recent, bound, j);
    forall y | y in names ensures LastIndex(uses, y) > LastIndex(uses, x) {
      var i :| 0 <= i < |names| && names[i] == y;
      assert recent[i] == y && i < j;
    }
  }

  /**
   * The remembered names are the most recently used distinct ones, as many as
   * the bound allows, in decreasing order of their last use.
   */
  lemma RememberedAreMostRecent(uses: seq<string>, bound: nat)
    ensures var names := Remembered(uses, bound);
      && Distinct(names)
      && ByLastUse(names, uses)
      && (forall x | x in names :: x in uses)
      && (forall x | x in uses && x !in names ::
            |names| == bound && forall y | y in names :: LastIndex(uses, y) > LastIndex(uses, x))
  {
    var names := Remembered(uses, bound);
    RecentDistinct(uses);
    RecentOrdered(uses);
    forall x | x in names ensures x in uses {
      RecentMembers(uses, x);
    }
    forall x | x in uses && x !in names
      ensures |names| == bound && forall y | y in names :: LastIndex(uses, y) > LastIndex(uses, x)
    {
      RecentBeyond(uses, bound, x);
    }
  }

  /** The front of a list after its element i has moved to the head. */
  lemma FrontAfterMove(names: seq<string>, bound: nat, i: nat)
    requires bound > 0 && i < |names|
    ensures var before := Front(names, bound);
      Front([names[i]] + (names[..i] + names[i + 1..]), bound) == [names[i]] +
        if i < |before| then before[..i] + before[i + 1..] else before[..bound - 1]
  {
    var before := Front(names, bound);
    var rest := names[..i] + names[i + 1..];
    if |names| > bound {
      assert ([names[i]] + rest)[..bound] == [names[i]] + rest[..bound - 1];
      if i < bound {
        assert rest[..bound - 1] == before[..i] + before[i + 1..];
      } else {
        assert rest[..bound - 1] == before[..bound - 1];
      }
    }
  }

  /** What one use of a name does to the remembered names: the least recent one may fall off. */
  lemma RememberedAfterUse(uses: seq<string>, bound: nat, name: string)
    requires bound > 0
    ensures var before := Remembered(uses, bound);
      Remembered(uses + [name], bound) == [name] +
        if name in before then Without(before, name)
        else if |before| < bound then before
        else before[..bound - 1]
  {
    assert (uses + [name])[..|uses|] == uses;
    assert Recent(uses + [name]) == [name] + Without(Recent(uses), name);
    RecentDistinct(uses);
    MoveToHead(Recent(uses), bound, name);
  }

  lemma MoveToHead(names: seq<string>, bound: nat, name: string)
    requires bound > 0 && Distinct(names)
    ensures var before := Front(names, bound);
      Front([name] + Without(names, name), bound) == [name] +
        if name in before then Without(before, name)
        else if |before| < bound then before
        else before[..bound - 1]
  {
    var before := Front(names, bound);
    if name in names {
      var i :| 0 <= i < |names| && names[i] == name;
      WithoutAt(names, i);
      FrontAfterMove(names, bound, i);
      InFront(names, bound, i);
      if i < |before| {
        WithoutAt(before, i);
      }
    } else {
      WithoutAbsent(names, name);
      if |names| >= bound {
        assert ([name] + names)[..bound] == [name] + names[..bound - 1];
        assert before[..bound - 1] == names[..bound - 1];
      }
    }
  }
}
