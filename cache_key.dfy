/**
 * `cacheService.buildCacheKey`: the storage key of a cached query is the
 * resource's base key followed by the query parameters, sorted by name and
 * written `name=value` joined by `&`.
 */
module CacheKey {
  import opened Text
  import opened Seqs

  /**
   * The own properties of a `params` object, in insertion order, each value
   * already rendered as the text a template literal gives it.
   */
  type Params = seq<(string, string)>

  /** An object never has two properties of the same name. */
  predicate DistinctNames(ps: Params)
  {
    forall i, j :: 0 <= i < j < |ps| ==> ps[i].0 != ps[j].0
  }

  /** `Object.keys(params)`. */
  function Names(ps: Params): (r: seq<string>)
    ensures |r| == |ps|
    ensures forall i :: 0 <= i < |ps| ==> r[i] == ps[i].0
  {
    if ps == [] then [] else [ps[0].0] + Names(ps[1..])
  }

  /** `params[name]`. */
  function ValueOf(ps: Params, name: string): string
    requires name in Names(ps)
  {
    if ps[0].0 == name then ps[0].1 else ValueOf(ps[1..], name)
  }

  lemma {:induction false} ValueOfPair(ps: Params, name: string, value: string)
    requires DistinctNames(ps) && (name, value) in ps
    ensures name in Names(ps) && ValueOf(ps, name) == value
  {
    var i :| 0 <= i < |ps| && ps[i] == (name, value);
    assert Names(ps)[i] == name;
    if ps[0].0 != name {
      assert i > 0 && ps[1..][i - 1] == (name, value);
      ValueOfPair(ps[1..], name, value);
    }
  }

  /** Strictly ascending in the order of the default `sort`. */
  predicate Ascending(s: seq<string>)
  {
    forall i, j :: 0 <= i < j < |s| ==> Less(s[i], s[j])
  }

  /** One step of the sort: `x` put in its place in `s`. */
  function Insert(x: string, s: seq<string>): (r: seq<string>)
    ensures multiset(r) == multiset(s) + multiset{x}
    ensures Ascending(s) && x !in s ==> Ascending(r)
  {
    if s == [] then [x]
    else if Less(x, s[0]) || x == s[0] then
      PrependSmallest(x, s);
      [x] + s
    else
      var rest := Insert(x, s[1..]);
      assert s == [s[0]] + s[1..];
      PrependHead(x, s, rest);
      [s[0]] + rest
  }

  /** A name below the first of an ascending list stays ascending in front of it. */
  lemma PrependSmallest(x: string, s: seq<string>)
    requires s != [] && (Less(x, s[0]) || x == s[0])
    ensures Ascending(s) && x !in s ==> Ascending([x] + s)
  {
    if Ascending(s) && x !in s {
      forall k | 0 <= k < |s| ensures Less(x, s[k]) {
        if k > 0 {
          LessTransitive(x, s[0], s[k]);
        }
      }
    }
  }

  /** The head of an ascending list stays ascending in front of `x` inserted into its tail. */
  lemma PrependHead(x: string, s: seq<string>, rest: seq<string>)
    requires s != [] && !Less(x, s[0]) && x != s[0]
    requires multiset(rest) == multiset(s[1..]) + multiset{x}
    requires Ascending(s[1..]) && x !in s[1..] ==> Ascending(rest)
    ensures Ascending(s) && x !in s ==> Ascending([s[0]] + rest)
  {
    if Ascending(s) && x !in s {
      LessTotal(x, s[0]);
      forall k | 0 <= k < |rest| ensures Less(s[0], rest[k]) {
        assert rest[k] in multiset(rest);
        if rest[k] != x {
          assert rest[k] in multiset(s[1..]);
          var m :| 0 <= m < |s[1..]| && s[1..][m] == rest[k];
          assert s[m + 1] == rest[k];
        }
      }
      assert Ascending(s[1..]);
    }
  }


  /** `Object.keys(params).sort()`. */
  function SortNames(s: seq<string>): (r: seq<string>)
    ensures multiset(r) == multiset(s)
    ensures Distinct(s) ==> Ascending(r)
  {
    if s == [] then []
    else
      var tail := SortNames(s[1..]);
      assert s == [s[0]] + s[1..];
      assert Distinct(s) ==> s[0] !in s[1..] by {
        if Distinct(s) {
          forall m | 0 <= m < |s[1..]| ensures s[1..][m] != s[0] {
            assert s[1..][m] == s[m + 1];
          }
        }
      }
      assert s[0] in tail ==> s[0] in s[1..] by {
        if s[0] in tail {
          assert s[0] in multiset(tail);
        }
      }
      Insert(s[0], tail)
  }

  lemma SortKeepsElements(s: seq<string>)
    ensures forall x :: x in SortNames(s) <==> x in s
  {
    var r := SortNames(s);
    forall x ensures x in r <==> x in s {
      assert x in r <==> x in multiset(r);
      assert x in s <==> x in multiset(s);
    }
  }

  /** Two ascending sequences with the same elements are the same sequence. */
  lemma {:induction false} AscendingUnique(a: seq<string>, b: seq<string>)
    requires Ascending(a) && Ascending(b)
    requires forall x :: x in a <==> x in b
    ensures a == b
  {
    assert a != [] ==> a[0] in b;
    assert b != [] ==> b[0] in a;
    if a != [] && b != [] {
      assert a[0] == b[0] by {
        assert b[0] in b && a[0] in a;
        var i :| 0 <= i < |a| && a[i] == b[0];
        var j :| 0 <= j < |b| && b[j] == a[0];
        if i > 0 && j > 0 {
          LessAsymmetric(a[0], b[0]);
        }
      }
      forall x ensures x in a[1..] <==> x in b[1..] {
        if x in a[1..] {
          var i :| 0 <= i < |a[1..]| && a[1..][i] == x;
          assert Less(a[0], x) by { assert a[i + 1] == x; }
          LessIrreflexive(x);
          assert x in b;
          assert b == [b[0]] + b[1..];
        }
        if x in b[1..] {
          var j :| 0 <= j < |b[1..]| && b[1..][j] == x;
          assert Less(b[0], x) by { assert b[j + 1] == x; }
          LessIrreflexive(x);
          assert x in a;
          assert a == [a[0]] + a[1..];
        }
      }
      AscendingUnique(a[1..], b[1..]);
      assert a == [a[0]] + a[1..] && b == [b[0]] + b[1..];
    }
  }

  /** `.join(sep)`. */
  function Join(parts: seq<string>, sep: string): string
  {
    if parts == [] then ""
    else if |parts| == 1 then parts[0]
    else parts[0] + sep + Join(parts[1..], sep)
  }

  /** `.map(k => `${k}=${params[k]}`)`. */
  function Assignments(names: seq<string>, ps: Params): (r: seq<string>)
    requires forall n :: n in names ==> n in Names(ps)
    ensures |r| == |names|
    ensures forall i :: 0 <= i < |names| ==> '=' in r[i]
  {
    if names == [] then []
    else
      var head := names[0] + "=" + ValueOf(ps, names[0]);
      assert head[|names[0]|] == '=';
      [head] + Assignments(names[1..], ps)
  }

  /** The sorted `name=value` assignments joined by `&`; empty exactly when there are no parameters. */
  function ParamString(ps: Params): (r: string)
    ensures r == "" <==> ps == []
  {
    var names := SortNames(Names(ps));
    assert forall n :: n in names ==> n in Names(ps) by {
      forall n | n in names ensures n in Names(ps) {
        assert n in multiset(names);
      }
    }
    var parts := Assignments(names, ps);
    assert |names| == |ps| by {
      assert |multiset(names)| == |multiset(Names(ps))|;
    }
    assert ps != [] ==> Join(parts, "&") != "" by {
      if ps != [] {
        assert '=' in parts[0];
        if |parts| > 1 {
          assert Join(parts, "&") == parts[0] + "&" + Join(parts[1..], "&");
        }
      }
    }
    Join(parts, "&")
  }

  /** The storage key for a query of resource `base` with parameters `ps`. */
  function BuildCacheKey(base: string, ps: Params): (key: string)
    ensures StartsWith(key, base)
    ensures key == base <==> ps == []
  {
    var paramString := ParamString(ps);
    if paramString != "" then base + "_" + paramString else base
  }

  lemma AssignmentsAgree(names: seq<string>, ps1: Params, ps2: Params)
    requires DistinctNames(ps1) && DistinctNames(ps2)
    requires forall x :: x in ps1 <==> x in ps2
    requires forall n :: n in names ==> n in Names(ps1) && n in Names(ps2)
    ensures Assignments(names, ps1) == Assignments(names, ps2)
    decreases |names|
  {
    if names != [] {
      var n := names[0];
      assert n in names;
      var i :| 0 <= i < |ps1| && Names(ps1)[i] == n;
      ValueOfPair(ps1, n, ps1[i].1);
      ValueOfPair(ps2, n, ps1[i].1);
      AssignmentsAgree(names[1..], ps1, ps2);
    }
  }

  lemma NamesOfSamePairs(ps1: Params, ps2: Params)
    requires forall x :: x in ps1 <==> x in ps2
    ensures forall n :: n in Names(ps1) <==> n in Names(ps2)
    ensures ps1 == [] <==> ps2 == []
  {
    forall n | n in Names(ps1) ensures n in Names(ps2) {
      var i :| 0 <= i < |ps1| && Names(ps1)[i] == n;
      assert ps1[i] in ps1;
      var j :| 0 <= j < |ps2| && ps2[j] == ps1[i];
      assert Names(ps2)[j] == n;
    }
    forall n | n in Names(ps2) ensures n in Names(ps1) {
      var j :| 0 <= j < |ps2| && Names(ps2)[j] == n;
      assert ps2[j] in ps2;
      var i :| 0 <= i < |ps1| && ps1[i] == ps2[j];
      assert Names(ps1)[i] == n;
    }
    if ps1 != [] {
      assert ps1[0] in ps2;
    }
    if ps2 != [] {
      assert ps2[0] in ps1;
    }
  }

  lemma DistinctNamesDistinct(ps: Params)
    requires DistinctNames(ps)
    ensures Distinct(Names(ps))
  {
  }

  /**
   * The key does not depend on the order in which the parameters were
   * written: two parameter objects with the same name/value pairs give the
   * same key.
   */
  lemma OrderIndependent(base: string, ps1: Params, ps2: Params)
    requires DistinctNames(ps1) && DistinctNames(ps2)
    requires forall x :: x in ps1 <==> x in ps2
    ensures BuildCacheKey(base, ps1) == BuildCacheKey(base, ps2)
  {
    SameParamString(ps1, ps2);
  }

  lemma SameParamString(ps1: Params, ps2: Params)
    requires DistinctNames(ps1) && DistinctNames(ps2)
    requires forall x :: x in ps1 <==> x in ps2
    ensures ParamString(ps1) == ParamString(ps2)
  {
    NamesOfSamePairs(ps1, ps2);
    var n1 := SortNames(Names(ps1));
    var n2 := SortNames(Names(ps2));
    DistinctNamesDistinct(ps1);
    DistinctNamesDistinct(ps2);
    SortKeepsElements(Names(ps1));
    SortKeepsElements(Names(ps2));
    AscendingUnique(n1, n2);
    forall n | n in n1 ensures n in Names(ps1) && n in Names(ps2) {
      assert n in multiset(Names(ps1));
    }
    AssignmentsAgree(n1, ps1, ps2);
  }

  /**
   * The key of a non-empty parameter object is the base key, `_`, and the
   * `name=value` assignments in ascending name order joined by `&`, whatever
   * order the object listed them in.
   */
  lemma KeyFormat(base: string, ps: Params, names: seq<string>)
    requires DistinctNames(ps) && ps != []
    requires Ascending(names)
    requires forall n :: n in names <==> n in Names(ps)
    ensures BuildCacheKey(base, ps) == base + "_" + Join(Assignments(names, ps), "&")
  {
    SortedParamString(ps, names);
  }

  lemma SortedParamString(ps: Params, names: seq<string>)
    requires DistinctNames(ps)
    requires Ascending(names)
    requires forall n :: n in names <==> n in Names(ps)
    ensures ParamString(ps) == Join(Assignments(names, ps), "&")
  {
    var sorted := SortNames(Names(ps));
    DistinctNamesDistinct(ps);
    SortKeepsElements(Names(ps));
    AscendingUnique(sorted, names);
  }
}
