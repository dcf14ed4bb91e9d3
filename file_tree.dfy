/**
 * The filesystem as `execRecursive` sees it: each `java.io.File` is a file,
 * a directory whose `listFiles()` gives the children, a directory whose
 * `listFiles()` gives null, an existing path that is neither, or a path that
 * does not exist.
 */
module FileTree {
  import opened NameOrder

  datatype Node =
    | File(name: string, path: string, absolutePath: string)
    | Dir(name: string, path: string, children: seq<Node>)
    | UnreadableDir(name: string, path: string)
    | Special(name: string, path: string)
    | Missing(name: string, path: string)

  /** Only these files are handed to the tool. */
  function IsYaml(name: string): (r: bool)
    ensures r <==> |name| >= 5 && name == name[..|name| - 5] + ".yaml"
  {
    |name| >= 5 && name[|name| - 5..] == ".yaml"
  }

  /** Any stem followed by `.yaml` is accepted; the shorter `.yml` extension is not. */
  lemma YamlExtension(stem: string)
    ensures IsYaml(stem + ".yaml")
    ensures !IsYaml(stem + ".yml")
  {
    assert (stem + ".yaml")[|stem|..] == ".yaml";
    if |stem| >= 1 {
      assert (stem + ".yml")[|stem| - 1 + 1] == '.';
    }
  }

  /** The comparator handed to `Arrays.sort`. */
  datatype Order = Ascending | Descending

  /**
   * `cmp.compare(x, y) < 0`: ascending compares the names, descending the
   * same names the other way round; never between equal names.
   */
  function Precedes(order: Order, x: Node, y: Node): (r: bool)
    ensures order == Ascending ==> (r <==> NameBefore(x.name, y.name))
    ensures order == Descending ==> (r <==> NameBefore(y.name, x.name))
    ensures r ==> x.name != y.name
  {
    match order
    case Ascending => NameBefore(x.name, y.name)
    case Descending => NameBefore(y.name, x.name)
  }

  /** No later entry must come before an earlier one. */
  predicate Sorted(order: Order, s: seq<Node>) {
    forall i, j :: 0 <= i < j < |s| ==> !Precedes(order, s[j], s[i])
  }

  lemma PrecedesIrreflexive(order: Order, x: Node)
    ensures !Precedes(order, x, x)
  {
    NameBeforeIrreflexive(x.name);
  }

  lemma PrecedesTransitive(order: Order, x: Node, y: Node, z: Node)
    requires Precedes(order, x, y) && Precedes(order, y, z)
    ensures Precedes(order, x, z)
  {
    match order
    case Ascending => NameBeforeTransitive(x.name, y.name, z.name);
    case Descending => NameBeforeTransitive(z.name, y.name, x.name);
  }

  /** If `x` comes before `z`, every `y` comes after `x` or before `z`. */
  lemma PrecedesSplit(order: Order, x: Node, y: Node, z: Node)
    requires Precedes(order, x, z)
    ensures Precedes(order, x, y) || Precedes(order, y, z)
  {
    NameBeforeTotal(x.name, y.name);
    if x.name == y.name {
    } else if !Precedes(order, x, y) {
      assert Precedes(order, y, x);
      PrecedesTransitive(order, y, x, z);
    }
  }

  /** Places `x` before the first entry that does not come before it. */
  function Insert(order: Order, x: Node, t: seq<Node>): (r: seq<Node>)
    ensures multiset(r) == multiset(t) + multiset{x}
  {
    if t == [] || !Precedes(order, t[0], x) then [x] + t
    else
      assert t == [t[0]] + t[1..];
      [t[0]] + Insert(order, x, t[1..])
  }

  /** `Arrays.sort(children, cmp)`: a stable sort by name in the given direction. */
  function SortByName(order: Order, s: seq<Node>): (r: seq<Node>)
    ensures multiset(r) == multiset(s)
  {
    if s == [] then []
    else
      assert s == [s[0]] + s[1..];
      Insert(order, s[0], SortByName(order, s[1..]))
  }

  lemma {:induction false} InsertSorted(order: Order, x: Node, t: seq<Node>)
    requires Sorted(order, t)
    ensures Sorted(order, Insert(order, x, t))
    decreases |t|
  {
    var r := Insert(order, x, t);
    if t == [] {
    } else if !Precedes(order, t[0], x) {
      forall j | 0 < j < |r| ensures !Precedes(order, r[j], x) {
        assert r[j] == t[j - 1];
        if j > 1 {
          assert !Precedes(order, t[j - 1], t[0]);
          if Precedes(order, t[j - 1], x) {
            PrecedesSplit(order, t[j - 1], t[0], x);
          }
        }
      }
    } else {
      var tail := Insert(order, x, t[1..]);
      assert Sorted(order, t[1..]);
      InsertSorted(order, x, t[1..]);
      forall k | 0 <= k < |tail| ensures !Precedes(order, tail[k], t[0]) {
        assert tail[k] in multiset(tail);
        if tail[k] == x {
          if Precedes(order, x, t[0]) {
            PrecedesTransitive(order, x, t[0], x);
            PrecedesIrreflexive(order, x);
          }
        } else {
          assert tail[k] in multiset(t[1..]);
          var m :| 0 <= m < |t[1..]| && t[1..][m] == tail[k];
          assert t[m + 1] == tail[k];
        }
      }
      assert r == [t[0]] + tail;
    }
  }

  /** The sorted listing is in the comparator's order. */
  lemma {:induction false} SortByNameSorted(order: Order, s: seq<Node>)
    ensures Sorted(order, SortByName(order, s))
    decreases |s|
  {
    if s != [] {
      SortByNameSorted(order, s[1..]);
      InsertSorted(order, s[0], SortByName(order, s[1..]));
    }
  }

  function Max(a: nat, b: nat): nat {
    if a < b then b else a
  }

  /** How deep the recursion of the walk can go below a node (the termination measure). */
  function Height(n: Node): nat {
    match n
    case Dir(_, _, children) => 1 + MaxHeight(children)
    case _ => 0
  }

  function MaxHeight(s: seq<Node>): nat {
    if s == [] then 0 else Max(MaxHeight(s[..|s| - 1]), Height(s[|s| - 1]))
  }

  lemma {:induction false} HeightWithin(s: seq<Node>, i: nat)
    requires i < |s|
    ensures Height(s[i]) <= MaxHeight(s)
    decreases |s|
  {
    if i < |s| - 1 {
      HeightWithin(s[..|s| - 1], i);
    }
  }

  /** Sorting a listing does not make the walk below it deeper. */
  lemma {:induction false} MaxHeightOfPermutation(s: seq<Node>, t: seq<Node>)
    requires multiset(s) == multiset(t)
    ensures MaxHeight(s) <= MaxHeight(t)
  {
    forall i | 0 <= i < |s| ensures Height(s[i]) <= MaxHeight(t) {
      assert s[i] in multiset(t);
      var j :| 0 <= j < |t| && t[j] == s[i];
      HeightWithin(t, j);
    }
    MaxHeightBelow(s, MaxHeight(t));
  }

  lemma {:induction false} MaxHeightBelow(s: seq<Node>, bound: nat)
    requires forall i :: 0 <= i < |s| ==> Height(s[i]) <= bound
    ensures MaxHeight(s) <= bound
    decreases |s|
  {
    if s != [] {
      MaxHeightBelow(s[..|s| - 1], bound);
    }
  }

  /** Entries of one directory listing have distinct names. */
  predicate DistinctNames(s: seq<Node>) {
    forall i, j :: 0 <= i < j < |s| ==> s[i].name != s[j].name
  }

  /** Every entry comes strictly before every later one. */
  predicate StrictlySorted(order: Order, s: seq<Node>) {
    forall i, j :: 0 <= i < j < |s| ==> Precedes(order, s[i], s[j])
  }

  lemma PrecedesAsymmetric(order: Order, x: Node, y: Node)
    requires Precedes(order, x, y)
    ensures !Precedes(order, y, x)
  {
    if Precedes(order, y, x) {
      PrecedesTransitive(order, x, y, x);
      PrecedesIrreflexive(order, x);
    }
  }

  lemma {:induction false} InsertDistinct(order: Order, x: Node, t: seq<Node>)
    requires DistinctNames(t)
    requires forall y :: y in t ==> y.name != x.name
    ensures DistinctNames(Insert(order, x, t))
    decreases |t|
  {
    if t != [] && Precedes(order, t[0], x) {
      var tail := Insert(order, x, t[1..]);
      InsertDistinct(order, x, t[1..]);
      forall k | 0 <= k < |tail| ensures tail[k].name != t[0].name {
        assert tail[k] in multiset(tail);
        if tail[k] != x {
          assert tail[k] in multiset(t[1..]);
          var m :| 0 <= m < |t[1..]| && t[1..][m] == tail[k];
          assert t[m + 1] == tail[k];
        }
      }
      assert Insert(order, x, t) == [t[0]] + tail;
    }
  }

  /** Sorting keeps the names of a listing distinct. */
  lemma {:induction false} SortByNameDistinct(order: Order, s: seq<Node>)
    requires DistinctNames(s)
    ensures DistinctNames(SortByName(order, s))
    decreases |s|
  {
    if s != [] {
      var rest := SortByName(order, s[1..]);
      SortByNameDistinct(order, s[1..]);
      forall y | y in rest ensures y.name != s[0].name {
        assert y in multiset(s[1..]);
        var m :| 0 <= m < |s[1..]| && s[1..][m] == y;
        assert s[m + 1] == y;
      }
      InsertDistinct(order, s[0], rest);
    }
  }

  lemma SortedDistinctIsStrict(order: Order, s: seq<Node>)
    requires Sorted(order, s) && DistinctNames(s)
    ensures StrictlySorted(order, s)
  {
    forall i, j | 0 <= i < j < |s| ensures Precedes(order, s[i], s[j]) {
      NameBeforeTotal(s[i].name, s[j].name);
    }
  }

  /** At most one arrangement of a collection is strictly sorted. */
  lemma {:induction false} StrictlySortedUnique(order: Order, a: seq<Node>, c: seq<Node>)
    requires multiset(a) == multiset(c)
    requires StrictlySorted(order, a) && StrictlySorted(order, c)
    ensures a == c
    decreases |a|
  {
    assert |a| == |multiset(a)| == |multiset(c)| == |c|;
    if a != [] {
      SortedHeadsAgree(order, a, c);
      TailsAgree(a, c);
      StrictlySortedTail(order, a);
      StrictlySortedTail(order, c);
      StrictlySortedUnique(order, a[1..], c[1..]);
      assert a == [a[0]] + a[1..] && c == [c[0]] + c[1..];
    }
  }

  lemma TailsAgree(a: seq<Node>, c: seq<Node>)
    requires a != [] && c != [] && a[0] == c[0] && multiset(a) == multiset(c)
    ensures multiset(a[1..]) == multiset(c[1..])
  {
    assert a == [a[0]] + a[1..] && c == [a[0]] + c[1..];
    assert multiset(a) == multiset{a[0]} + multiset(a[1..]);
    assert multiset(c) == multiset{a[0]} + multiset(c[1..]);
    assert multiset(a[1..]) == multiset(a) - multiset{a[0]} == multiset(c[1..]);
  }

  lemma StrictlySortedTail(order: Order, s: seq<Node>)
    requires s != [] && StrictlySorted(order, s)
    ensures StrictlySorted(order, s[1..])
  {
    forall i, j | 0 <= i < j < |s[1..]| ensures Precedes(order, s[1..][i], s[1..][j]) {
      assert s[1..][i] == s[i + 1] && s[1..][j] == s[j + 1];
    }
  }

  lemma SortedHeadsAgree(order: Order, a: seq<Node>, c: seq<Node>)
    requires a != [] && multiset(a) == multiset(c)
    requires StrictlySorted(order, a) && StrictlySorted(order, c)
    ensures c != [] && a[0] == c[0]
  {
    assert a[0] in multiset(c);
    var k :| 0 <= k < |c| && c[k] == a[0];
    assert c[0] in multiset(a);
    var m :| 0 <= m < |a| && a[m] == c[0];
    if m > 0 {
      assert Precedes(order, a[0], a[m]);
      PrecedesAsymmetric(order, a[0], c[0]);
    } else {
      PrecedesIrreflexive(order, a[0]);
    }
    assert !Precedes(order, c[0], c[k]);
    assert k == 0;
  }

  function Reverse(s: seq<Node>): (r: seq<Node>)
    ensures |r| == |s|
    ensures forall i :: 0 <= i < |s| ==> r[i] == s[|s| - 1 - i]
    ensures multiset(r) == multiset(s)
  {
    if s == [] then []
    else
      assert s == [s[0]] + s[1..];
      Reverse(s[1..]) + [s[0]]
  }

  lemma ReverseOfAscending(up: seq<Node>)
    requires StrictlySorted(Ascending, up)
    ensures StrictlySorted(Descending, Reverse(up))
  {
  }

  /** A listing with distinct names sorts into strictly ordered entries. */
  lemma SortByNameStrict(order: Order, s: seq<Node>)
    requires DistinctNames(s)
    ensures StrictlySorted(order, SortByName(order, s))
  {
    SortByNameSorted(order, s);
    SortByNameDistinct(order, s);
    SortedDistinctIsStrict(order, SortByName(order, s));
  }

  /**
   * Within a listing whose names are distinct, `delete` visits the entries
   * in exactly the reverse of the order `create` and `replace` use.
   */
  lemma DescendingReversesAscending(s: seq<Node>)
    requires DistinctNames(s)
    ensures SortByName(Descending, s) == Reverse(SortByName(Ascending, s))
  {
    var up := SortByName(Ascending, s);
    SortByNameStrict(Ascending, s);
    SortByNameStrict(Descending, s);
    ReverseOfAscending(up);
    StrictlySortedUnique(Descending, SortByName(Descending, s), Reverse(up));
  }
}
