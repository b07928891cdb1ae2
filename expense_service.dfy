/**
 * The in-memory expense store of app/services/expense_service.py. The store
 * keeps a list of references to `Expense` objects; the queries read their
 * current fields, and the bulk operations change those objects in place, so
 * an object that was added twice is changed twice.
 */
module ExpenseServices {
  import opened Wrappers
  import opened Text
  import opened Calendar
  import opened Expenses

  /** The errors the store raises. */
  datatype ServiceError =
    | InvalidExpense            // `ValueError("Invalid expense data")` from `add_expense`
    | Undecodable(DecodeError)  // an exception from `Expense.from_dict`

  // ---------------------------------------------------------------- records of a list

  /** The records the objects of `es` currently hold. */
  function Values(es: seq<Expense>): (vs: seq<Record>)
    reads es
    ensures |vs| == |es| && forall i :: 0 <= i < |es| ==> vs[i] == es[i].Value()
  {
    seq(|es|, i reads es requires 0 <= i < |es| => es[i].Value())
  }

  /** The position of the first record whose id is `id`, or `|vs|`. */
  function IdIndex(vs: seq<Record>, id: int): (k: nat)
    ensures k <= |vs| && (k < |vs| ==> vs[k].id == Some(id))
    ensures forall j :: 0 <= j < k ==> vs[j].id != Some(id)
  {
    if vs == [] then 0 else if vs[0].id == Some(id) then 0 else 1 + IdIndex(vs[1..], id)
  }

  /** The position `list.remove(x)` deletes: the first element that is `x` or
    * compares equal to it (`__eq__` ignores ids), or `|vs|` if none does. */
  function RemovalIndex(vs: seq<Record>, x: Record): (j: nat)
    ensures j <= |vs| && (j < |vs| ==> Same(vs[j], x))
    ensures forall i :: 0 <= i < j ==> !Same(vs[i], x)
  {
    if vs == [] then 0 else if Same(vs[0], x) then 0 else 1 + RemovalIndex(vs[1..], x)
  }

  /** Removing an element of the list deletes it or an earlier equal record,
    * and it deletes that element itself exactly when no earlier record
    * equals it. */
  lemma RemovalIndexAtMost(vs: seq<Record>, k: nat)
    requires k < |vs|
    ensures RemovalIndex(vs, vs[k]) <= k
    ensures RemovalIndex(vs, vs[k]) == k <==> forall i :: 0 <= i < k ==> !Same(vs[i], vs[k])
  {
    SameIgnoresId(vs[k], vs[k], vs[k]);
  }

  /** `delete_expense` can remove a record other than the one it looked up:
    * of two records that differ only in their ids, deleting the second id
    * removes the first record. */
  lemma DeleteRemovesEarlierTwin(a: Record)
    requires a.id == Some(1)
    ensures var b := a.(id := Some(2));
            IdIndex([a, b], 2) == 1 && RemovalIndex([a, b], b) == 0
  {
  }

  /** `sum(e.amount for e in expenses)`. */
  function Total(vs: seq<Record>): real
  {
    if vs == [] then 0.0 else vs[0].amount + Total(vs[1..])
  }

  lemma {:induction false} TotalAppend(a: seq<Record>, b: seq<Record>)
    ensures Total(a + b) == Total(a) + Total(b)
  {
    if a == [] {
      assert a + b == b;
    } else {
      assert (a + b)[0] == a[0] && (a + b)[1..] == a[1..] + b;
      TotalAppend(a[1..], b);
    }
  }

  /** If every amount lies in `lo..hi`, the total lies between `n * lo` and `n * hi`. */
  lemma {:induction false} TotalBounds(vs: seq<Record>, lo: real, hi: real)
    requires forall i :: 0 <= i < |vs| ==> lo <= vs[i].amount <= hi
    ensures (|vs| as real) * lo <= Total(vs) <= (|vs| as real) * hi
  {
    if vs != [] {
      TotalBounds(vs[1..], lo, hi);
    }
  }

  // ---------------------------------------------------------------- per-category totals

  /** The records of `vs` whose category is exactly `c`. */
  function OfCategory(vs: seq<Record>, c: string): (r: seq<Record>)
    ensures IsSubsequence(r, vs)
    ensures forall i :: 0 <= i < |r| ==> r[i].category == c
    ensures forall x :: x in vs && x.category == c ==> x in r
  {
    if vs == [] then []
    else
      var rest := OfCategory(vs[1..], c);
      if vs[0].category == c then [vs[0]] + rest else rest
  }

  /** The sum of the amounts of category `c`. */
  function CategoryTotal(vs: seq<Record>, c: string): real
  {
    Total(OfCategory(vs, c))
  }

  /** The distinct categories of `vs`, in order of first occurrence: the key
    * order of the dictionary `total_amount_by_category` builds. */
  function Categories(vs: seq<Record>): seq<string>
  {
    if vs == [] then []
    else
      var front := Categories(vs[..|vs| - 1]);
      var c := vs[|vs| - 1].category;
      if c in front then front else front + [c]
  }

  /** No category is listed twice. */
  lemma {:induction false} CategoriesDistinct(vs: seq<Record>)
    ensures forall i, j :: 0 <= i < j < |Categories(vs)| ==> Categories(vs)[i] != Categories(vs)[j]
  {
    if vs != [] {
      var front := Categories(vs[..|vs| - 1]);
      var c := vs[|vs| - 1].category;
      CategoriesDistinct(vs[..|vs| - 1]);
      if c !in front {
        forall i, j | 0 <= i < j < |front| + 1
          ensures (front + [c])[i] != (front + [c])[j]
        {
          assert (front + [c])[i] == front[i];
          if j == |front| {
            assert front[i] in front;
          } else {
            assert (front + [c])[j] == front[j];
            assert front[i] != front[j];
          }
        }
      }
    }
  }

  /** A category is listed exactly when some record carries it. */
  lemma {:induction false} CategoriesIff(vs: seq<Record>)
    ensures forall c :: c in Categories(vs) <==> exists i :: 0 <= i < |vs| && vs[i].category == c
  {
    if vs != [] {
      var n := |vs| - 1;
      var front := Categories(vs[..n]);
      CategoriesIff(vs[..n]);
      forall c
        ensures c in Categories(vs) <==> exists i :: 0 <= i < |vs| && vs[i].category == c
      {
        if c in front {
          var i :| 0 <= i < n && vs[..n][i].category == c;
          assert vs[i].category == c;
        } else if c != vs[n].category {
          forall i | 0 <= i < |vs|
            ensures vs[i].category != c
          {
            if i < n {
              assert vs[..n][i] == vs[i];
            }
          }
        }
      }
    }
  }

  lemma {:induction false} OfCategoryAppend(vs: seq<Record>, r: Record, c: string)
    ensures OfCategory(vs + [r], c) == OfCategory(vs, c) + (if r.category == c then [r] else [])
  {
    if vs != [] {
      assert (vs + [r])[1..] == vs[1..] + [r];
      OfCategoryAppend(vs[1..], r, c);
    }
  }

  /** Adding a record adds its amount to the total of its own category only. */
  lemma CategoryTotalAppend(vs: seq<Record>, r: Record, c: string)
    ensures CategoryTotal(vs + [r], c) == CategoryTotal(vs, c) + (if r.category == c then r.amount else 0.0)
  {
    OfCategoryAppend(vs, r, c);
    TotalAppend(OfCategory(vs, c), if r.category == c then [r] else []);
  }

  /** A category that does not occur has total zero. */
  lemma {:induction false} CategoryTotalAbsent(vs: seq<Record>, c: string)
    requires forall i :: 0 <= i < |vs| ==> vs[i].category != c
    ensures CategoryTotal(vs, c) == 0.0
  {
    if vs != [] {
      CategoryTotalAbsent(vs[1..], c);
      assert OfCategory(vs, c) == OfCategory(vs[1..], c);
    }
  }

  /** The totals of the categories in `cs`, added up. */
  function SumOfTotals(vs: seq<Record>, cs: seq<string>): real
  {
    if cs == [] then 0.0 else SumOfTotals(vs, cs[..|cs| - 1]) + CategoryTotal(vs, cs[|cs| - 1])
  }

  lemma {:induction false} SumOfTotalsAppend(vs: seq<Record>, r: Record, cs: seq<string>)
    requires forall i, j :: 0 <= i < j < |cs| ==> cs[i] != cs[j]
    ensures SumOfTotals(vs + [r], cs) == SumOfTotals(vs, cs) + (if r.category in cs then r.amount else 0.0)
  {
    if cs != [] {
      var front := cs[..|cs| - 1];
      SumOfTotalsAppend(vs, r, front);
      CategoryTotalAppend(vs, r, cs[|cs| - 1]);
      assert r.category in cs <==> r.category in front || r.category == cs[|cs| - 1];
      assert r.category == cs[|cs| - 1] ==> r.category !in front;
    }
  }

  /** The categories of `vs` plus one more record: its category is appended
    * unless it is already present. */
  lemma CategoriesSnoc(vs: seq<Record>, r: Record)
    ensures var cs := Categories(vs);
            Categories(vs + [r]) == if r.category in cs then cs else cs + [r.category]
  {
    assert (vs + [r])[..|vs|] == vs;
  }

  /** `totals` maps each category of `vs` to its total, and nothing else. */
  ghost predicate TotalsOf(totals: map<string, real>, vs: seq<Record>) {
    && (forall c :: c in totals <==> c in Categories(vs))
    && (forall c :: c in totals ==> totals[c] == CategoryTotal(vs, c))
  }

  /** `totals` with the amount of `r` added to the entry of its category,
    * which starts at zero when absent (a `defaultdict(float)` update). */
  function Credit(totals: map<string, real>, r: Record): (t: map<string, real>)
    ensures t.Keys == totals.Keys + {r.category}
    ensures r.category in totals ==> t[r.category] == totals[r.category] + r.amount
    ensures r.category !in totals ==> t[r.category] == r.amount
    ensures forall c :: c in totals && c != r.category ==> t[c] == totals[c]
  {
    totals[r.category := (if r.category in totals then totals[r.category] else 0.0) + r.amount]
  }

  /** Crediting a record keeps the keys the categories. */
  lemma CreditKeys(totals: map<string, real>, vs: seq<Record>, r: Record)
    requires forall c :: c in totals <==> c in Categories(vs)
    ensures forall c :: c in Credit(totals, r) <==> c in Categories(vs + [r])
  {
    CategoriesSnoc(vs, r);
    var cs := Categories(vs);
    if r.category !in cs {
      assert forall d :: d in cs + [r.category] <==> d in cs || d == r.category;
    }
  }

  /** Crediting a record keeps every entry the total of its category. */
  lemma CreditValues(totals: map<string, real>, vs: seq<Record>, r: Record)
    requires TotalsOf(totals, vs)
    ensures forall c :: c in Credit(totals, r) ==> Credit(totals, r)[c] == CategoryTotal(vs + [r], c)
  {
    var c, t := r.category, Credit(totals, r);
    if c !in totals {
      CategoriesIff(vs);
      CategoryTotalAbsent(vs, c);
    }
    forall d | d in t
      ensures t[d] == CategoryTotal(vs + [r], d)
    {
      CategoryTotalAppend(vs, r, d);
    }
  }

  /** Crediting one more record keeps the totals right. */
  lemma TotalsStep(totals: map<string, real>, vs: seq<Record>, r: Record)
    requires TotalsOf(totals, vs)
    ensures TotalsOf(Credit(totals, r), vs + [r])
  {
    CreditKeys(totals, vs, r);
    CreditValues(totals, vs, r);
  }

  /** The per-category totals add up to the total amount. */
  lemma {:induction false} CategoryTotalsAddUp(vs: seq<Record>)
    ensures SumOfTotals(vs, Categories(vs)) == Total(vs)
  {
    if vs != [] {
      var front := vs[..|vs| - 1];
      var r := vs[|vs| - 1];
      assert vs == front + [r];
      CategoryTotalsAddUp(front);
      TotalAppend(front, [r]);
      var cs := Categories(front);
      CategoriesDistinct(front);
      SumOfTotalsAppend(front, r, cs);
      if r.category !in cs {
        CategoriesIff(front);
        CategoryTotalAppend(front, r, r.category);
        CategoryTotalAbsent(front, r.category);
        assert Categories(vs) == cs + [r.category];
        assert (cs + [r.category])[..|cs|] == cs;
      }
    }
  }

  // ---------------------------------------------------------------- duplicates

  function Keys(vs: seq<Record>): (ks: seq<DupKey>)
    ensures |ks| == |vs| && forall i :: 0 <= i < |vs| ==> ks[i] == Key(vs[i])
  {
    seq(|vs|, i requires 0 <= i < |vs| => Key(vs[i]))
  }

  /** The positions whose key already occurred earlier, in increasing order. */
  function DuplicateIndices(ks: seq<DupKey>): (d: seq<nat>)
    ensures forall t :: 0 <= t < |d| ==> d[t] < |ks|
    ensures forall s, t :: 0 <= s < t < |d| ==> d[s] < d[t]
  {
    if ks == [] then []
    else
      var n := |ks| - 1;
      var front := DuplicateIndices(ks[..n]);
      if ks[n] in ks[..n] then front + [n] else front
  }

  /** A position is reported exactly when its key occurred at an earlier
    * position; the first occurrence of a key is never reported. */
  lemma {:induction false} DuplicateIndicesIff(ks: seq<DupKey>)
    ensures forall j :: 0 <= j < |ks| ==> (j in DuplicateIndices(ks) <==> ks[j] in ks[..j])
  {
    if ks != [] {
      var n := |ks| - 1;
      var front := DuplicateIndices(ks[..n]);
      var d := DuplicateIndices(ks);
      DuplicateIndicesIff(ks[..n]);
      DuplicateIndicesSnoc(ks);
      assert n !in front;
      forall j | 0 <= j < |ks|
        ensures j in d <==> ks[j] in ks[..j]
      {
        if j < n {
          assert ks[..n][j] == ks[j];
          assert ks[..n][..j] == ks[..j];
        }
      }
    }
  }

  /** The last position is reported after the earlier ones exactly when its
    * key occurred before it. */
  lemma DuplicateIndicesSnoc(ks: seq<DupKey>)
    requires ks != []
    ensures var n := |ks| - 1;
            forall j :: j in DuplicateIndices(ks) <==>
                          j in DuplicateIndices(ks[..n]) || (j == n && ks[n] in ks[..n])
  {
  }

  /** Each key is reported once per repetition: as many duplicates as
    * elements, less one per distinct key. */
  lemma {:induction false} DuplicateCount(ks: seq<DupKey>)
    ensures |DuplicateIndices(ks)| == |ks| - |set k | k in ks|
  {
    if ks != [] {
      var n := |ks| - 1;
      DuplicateCount(ks[..n]);
      var s := set k | k in ks[..n];
      assert ks == ks[..n] + [ks[n]];
      assert (set k | k in ks) == s + {ks[n]};
      if ks[n] in ks[..n] {
        assert ks[n] in s;
        assert s + {ks[n]} == s;
      } else {
        assert ks[n] !in s;
        assert |s + {ks[n]}| == |s| + 1;
      }
    }
  }

  /** One more position adds its element to the duplicates exactly when its
    * key occurred before. */
  lemma DuplicatesStep(es: seq<Expense>, ks: seq<DupKey>, i: nat)
    requires |ks| == |es| && i < |ks|
    ensures Pick(es, DuplicateIndices(ks[..i + 1]))
         == Pick(es, DuplicateIndices(ks[..i])) + (if ks[i] in ks[..i] then [es[i]] else [])
  {
    assert ks[..i + 1][..i] == ks[..i];
  }

  /** The keys seen after one more position: the earlier ones and the new key,
    * which was among them exactly when it occurred earlier. */
  lemma SeenStep(ks: seq<DupKey>, i: nat)
    requires i < |ks|
    ensures var next := ks[..i + 1]; (set k | k in next) == (set k | k in ks[..i]) + {ks[i]}
    ensures ks[i] in (set k | k in ks[..i]) <==> ks[i] in ks[..i]
  {
    assert ks[..i + 1] == ks[..i] + [ks[i]];
  }

  /** Appending an object that holds `r` to a list that holds `vals` gives a
    * list that holds `vals + [r]`. */
  lemma AppendedValues(prev: seq<Expense>, vals: seq<Record>, e: Expense, r: Record)
    requires |prev| == |vals| && forall j :: 0 <= j < |prev| ==> prev[j].Value() == vals[j]
    requires e.Value() == r
    ensures var es, now := prev + [e], vals + [r];
            |es| == |now| && forall j :: 0 <= j < |es| ==> es[j].Value() == now[j]
  {
    var es, now := prev + [e], vals + [r];
    forall j | 0 <= j < |es| ensures es[j].Value() == now[j] {
      if j < |prev| {
        assert es[j] == prev[j] && now[j] == vals[j];
      }
    }
  }

  /** The elements at the positions `d`. */
  function Pick(es: seq<Expense>, d: seq<nat>): (r: seq<Expense>)
    requires forall t :: 0 <= t < |d| ==> d[t] < |es|
    ensures |r| == |d| && forall t :: 0 <= t < |d| ==> r[t] == es[d[t]]
  {
    seq(|d|, t requires 0 <= t < |d| => es[d[t]])
  }

  // ---------------------------------------------------------------- most recent

  /** An element of the list together with the date the sort compares. */
  type Stamped = (Expense, Timestamp)

  /** The list paired with the dates its elements hold now. */
  function Stamps(es: seq<Expense>): (s: seq<Stamped>)
    reads set x | x in es
    ensures |s| == |es| && forall i :: 0 <= i < |es| ==> s[i] == (es[i], es[i].date)
  {
    seq(|es|, i reads set x | x in es requires 0 <= i < |es| => (es[i], es[i].date))
  }

  /** The elements of a list of stamped elements. */
  function Elements(s: seq<Stamped>): (r: seq<Expense>)
    ensures |r| == |s| && forall i :: 0 <= i < |s| ==> r[i] == s[i].0
  {
    if s == [] then [] else [s[0].0] + Elements(s[1..])
  }

  /** An element at a position before `k` is among the first `k` elements. */
  lemma PrefixHolds(s: seq<Stamped>, k: nat, m: nat)
    requires k <= |s| && m < |s|
    ensures m < k ==> s[m].0 in Elements(s[..k])
  {
    if m < k {
      assert Elements(s[..k])[m] == s[m].0;
    }
  }

  lemma {:induction false} ElementsAppend(a: seq<Stamped>, b: seq<Stamped>)
    ensures Elements(a + b) == Elements(a) + Elements(b)
  {
    if a == [] {
      assert a + b == b;
    } else {
      assert (a + b)[0] == a[0] && (a + b)[1..] == a[1..] + b;
      ElementsAppend(a[1..], b);
    }
  }

  /** Removing the same element from two permutations of each other leaves
    * permutations of each other. */
  lemma PermutationTail(a: seq<Stamped>, b: seq<Stamped>, k: nat)
    requires multiset(a) == multiset(b) && a != [] && k < |b| && b[k] == a[0]
    ensures multiset(a[1..]) == multiset(b[..k] + b[k + 1..])
  {
    var u, v := b[..k], b[k + 1..];
    assert b == u + [a[0]] + v;
    assert a == [a[0]] + a[1..];
    assert multiset(a) == multiset{a[0]} + multiset(a[1..]);
    assert multiset(b) == multiset(u) + multiset{a[0]} + multiset(v);
    calc {
      multiset(a[1..]);
      multiset(a) - multiset{a[0]};
      multiset(b) - multiset{a[0]};
      multiset(u) + multiset(v);
      multiset(u + v);
    }
  }

  /** The elements of a list are those of the list without position `k`,
    * plus the element at `k`. */
  lemma ElementsAround(b: seq<Stamped>, k: nat)
    requires k < |b|
    ensures multiset(Elements(b)) == multiset(Elements(b[..k] + b[k + 1..])) + multiset{b[k].0}
  {
    var u, v := b[..k], b[k + 1..];
    ElementsSplit(b, k);
    ElementsAppend(u, v);
    MultisetMiddle(Elements(u), b[k].0, Elements(v));
  }

  lemma ElementsSplit(b: seq<Stamped>, k: nat)
    requires k < |b|
    ensures Elements(b) == Elements(b[..k]) + [b[k].0] + Elements(b[k + 1..])
  {
    var eu, ev := Elements(b[..k]), Elements(b[k + 1..]);
    var r := eu + [b[k].0] + ev;
    forall i | 0 <= i < |b|
      ensures r[i] == b[i].0
    {
      if i < k {
        assert r[i] == eu[i];
      } else if k < i {
        assert r[i] == ev[i - k - 1];
      }
    }
  }

  lemma MultisetMiddle(p: seq<Expense>, x: Expense, q: seq<Expense>)
    ensures multiset(p + [x] + q) == multiset(p + q) + multiset{x}
  {
  }

  /** Lists that are permutations of each other have permuted elements. */
  lemma {:induction false} ElementsOfPermutation(a: seq<Stamped>, b: seq<Stamped>)
    requires multiset(a) == multiset(b)
    ensures multiset(Elements(a)) == multiset(Elements(b))
    decreases |a|
  {
    if a != [] {
      assert a[0] in multiset(b);
      var k :| 0 <= k < |b| && b[k] == a[0];
      PermutationTail(a, b, k);
      ElementsOfPermutation(a[1..], b[..k] + b[k + 1..]);
      ElementsAround(b, k);
      assert Elements(a) == [a[0].0] + Elements(a[1..]);
    } else {
      assert b == [];
    }
  }

  /** Inserts `p` in front of the first element not later than it. */
  function Insert(p: Stamped, s: seq<Stamped>): (r: seq<Stamped>)
    ensures |r| == |s| + 1 && multiset(r) == multiset(s) + multiset{p}
  {
    if s == [] || s[0].1.AtMost(p.1) then [p] + s
    else
      assert s == [s[0]] + s[1..];
      [s[0]] + Insert(p, s[1..])
  }

  /** `sorted(..., key=date, reverse=True)`: an insertion sort, newest first,
    * that keeps elements with equal dates in their original order. */
  function SortNewestFirst(s: seq<Stamped>): (r: seq<Stamped>)
    ensures |r| == |s| && multiset(r) == multiset(s)
  {
    if s == [] then []
    else
      assert s == [s[0]] + s[1..];
      Insert(s[0], SortNewestFirst(s[1..]))
  }

  predicate NewestFirst(s: seq<Stamped>) {
    forall i, j :: 0 <= i < j < |s| ==> s[j].1.AtMost(s[i].1)
  }

  lemma {:induction false} InsertKeepsOrder(p: Stamped, s: seq<Stamped>)
    requires NewestFirst(s)
    ensures NewestFirst(Insert(p, s))
  {
    if s == [] || s[0].1.AtMost(p.1) {
      forall j | 0 < j < |s| + 1 ensures ([p] + s)[j].1.AtMost(p.1) {
        AtMostIsTotalOrder(s[j - 1].1, s[0].1, p.1);
      }
    } else {
      InsertKeepsOrder(p, s[1..]);
      var r := Insert(p, s[1..]);
      AtMostIsTotalOrder(s[0].1, p.1, p.1);
      forall j | 0 <= j < |r| ensures r[j].1.AtMost(s[0].1) {
        assert r[j] in multiset(r);
        assert r[j] in multiset(s[1..]) || r[j] == p;
        if r[j] != p {
          var k :| 0 <= k < |s[1..]| && s[1..][k] == r[j];
          assert s[k + 1] == r[j];
        }
      }
    }
  }

  /** The sorted list is newest first. */
  lemma {:induction false} SortIsNewestFirst(s: seq<Stamped>)
    ensures NewestFirst(SortNewestFirst(s))
  {
    if s != [] {
      SortIsNewestFirst(s[1..]);
      InsertKeepsOrder(s[0], SortNewestFirst(s[1..]));
    }
  }

  /** The elements dated `d`, in order. */
  function DatedAt(s: seq<Stamped>, d: Timestamp): seq<Stamped> {
    if s == [] then [] else (if s[0].1 == d then [s[0]] else []) + DatedAt(s[1..], d)
  }

  lemma {:induction false} InsertIsStable(p: Stamped, s: seq<Stamped>, d: Timestamp)
    ensures DatedAt(Insert(p, s), d) == (if p.1 == d then [p] else []) + DatedAt(s, d)
  {
    if s == [] || s[0].1.AtMost(p.1) {
      assert ([p] + s)[1..] == s;
    } else {
      InsertIsStable(p, s[1..], d);
      assert ([s[0]] + Insert(p, s[1..]))[1..] == Insert(p, s[1..]);
      AtMostIsTotalOrder(s[0].1, p.1, p.1);
    }
  }

  /** The sort is stable: the elements of any one date keep their order. */
  lemma {:induction false} SortIsStable(s: seq<Stamped>, d: Timestamp)
    ensures DatedAt(SortNewestFirst(s), d) == DatedAt(s, d)
  {
    if s != [] {
      SortIsStable(s[1..], d);
      InsertIsStable(s[0], SortNewestFirst(s[1..]), d);
    }
  }

  /** Every pair of a permutation of the stamped list holds its element's date. */
  lemma StampsStayTrue(es: seq<Expense>, sorted: seq<Stamped>)
    requires multiset(sorted) == multiset(Stamps(es))
    ensures forall m :: 0 <= m < |sorted| ==> sorted[m].1 == sorted[m].0.date
  {
    forall m | 0 <= m < |sorted| ensures sorted[m].1 == sorted[m].0.date {
      assert sorted[m] in multiset(Stamps(es));
    }
  }

  /** A prefix of the sorted stamped list holds part of the list. */
  lemma RecentIsPartOfList(es: seq<Expense>, sorted: seq<Stamped>, k: nat)
    requires multiset(sorted) == multiset(Stamps(es)) && k <= |sorted|
    ensures multiset(Elements(sorted[..k])) <= multiset(es)
  {
    ElementsOfPermutation(sorted, Stamps(es));
    assert Elements(Stamps(es)) == es;
    assert sorted == sorted[..k] + sorted[k..];
    ElementsAppend(sorted[..k], sorted[k..]);
  }

  /** The length of `xs[:limit]` for a list of length `n`: a negative limit
    * counts from the end. */
  function SliceLength(n: nat, limit: int): (k: nat)
    ensures k <= n
    ensures limit >= 0 ==> k == (if limit < n then limit else n)
    ensures limit < 0 ==> k == (if n + limit > 0 then n + limit else 0)
  {
    if limit >= 0 then (if limit < n then limit else n)
    else if n + limit > 0 then n + limit else 0
  }

  // ---------------------------------------------------------------- repeated changes

  /** A record after `n` calls of `categorize(mapping)`. */
  function RecategorizedTimes(r: Record, mapping: map<string, string>, n: nat): Record
  {
    if n == 0 then r else Recategorized(RecategorizedTimes(r, mapping, n - 1), mapping)
  }

  /** Recategorising changes nothing but the category, and nothing at all when
    * the lowered category is not a key of the mapping. */
  lemma {:induction false} RecategorizedTimesProperties(r: Record, mapping: map<string, string>, n: nat)
    ensures RecategorizedTimes(r, mapping, n) == r.(category := RecategorizedTimes(r, mapping, n).category)
    ensures Lower(r.category) !in mapping ==> RecategorizedTimes(r, mapping, n) == r
  {
    if n > 0 {
      RecategorizedTimesProperties(r, mapping, n - 1);
    }
  }

  /** A record after `n` calls of `apply_discount(percent)`. */
  function DiscountedTimes(r: Record, percent: real, n: nat): Record
  {
    if n == 0 then r else Discounted(DiscountedTimes(r, percent, n - 1), percent)
  }

  /** Repeated discounts change nothing but the amount, and keep a positive
    * amount positive and no larger. */
  lemma {:induction false} DiscountedTimesProperties(r: Record, percent: real, n: nat)
    ensures DiscountedTimes(r, percent, n) == r.(amount := DiscountedTimes(r, percent, n).amount)
    ensures r.amount > 0.0 ==> 0.0 < DiscountedTimes(r, percent, n).amount <= r.amount
  {
    if n > 0 {
      DiscountedTimesProperties(r, percent, n - 1);
      var prev := DiscountedTimes(r, percent, n - 1);
      if prev.amount > 0.0 && 0.0 < percent < 100.0 {
        DiscountShrinksPositiveAmount(prev, percent);
      }
    }
  }

  lemma DivideBounds(t: real, n: real, lo: real, hi: real)
    requires n > 0.0 && n * lo <= t <= n * hi
    ensures lo <= t / n <= hi
  {
    var a := t / n;
    assert a - lo == (t - n * lo) / n;
    assert hi - a == (n * hi - t) / n;
  }

  /** The mean of amounts that all lie in `[lo, hi]` lies there too. */
  lemma MeanIsBounded(vs: seq<Record>, lo: real, hi: real)
    requires vs != []
    requires forall i :: 0 <= i < |vs| ==> lo <= vs[i].amount <= hi
    ensures lo <= Total(vs) / (|vs| as real) <= hi
  {
    TotalBounds(vs, lo, hi);
    DivideBounds(Total(vs), |vs| as real, lo, hi);
  }

  /** Extending a prefix by one element adds one to that element's count. */
  lemma CountStep(es: seq<Expense>, i: nat)
    requires i < |es|
    ensures forall o :: multiset(es[..i + 1])[o] == multiset(es[..i])[o] + (if es[i] == o then 1 else 0)
  {
    assert es[..i + 1] == es[..i] + [es[i]];
  }

  lemma CountAll(es: seq<Expense>)
    ensures multiset(es[..|es|]) == multiset(es)
  {
    assert es[..|es|] == es;
  }

  /** A record after `n` visits of the loop of `apply_discount_to_category`:
    * each visit discounts it if its category matches. */
  function DiscountVisits(r: Record, category: string, percent: real, n: nat): (d: Record)
  {
    if n == 0 then r
    else
      var prev := DiscountVisits(r, category, percent, n - 1);
      if MatchesCategory(prev, category) then Discounted(prev, percent) else prev
  }

  /** The discount does not change the category, so a record whose category
    * matches is discounted on every visit and any other is left alone. */
  lemma {:induction false} DiscountVisitsMeaning(r: Record, category: string, percent: real, n: nat)
    ensures DiscountVisits(r, category, percent, n) ==
              if MatchesCategory(r, category) then DiscountedTimes(r, percent, n) else r
  {
    if n > 0 {
      DiscountVisitsMeaning(r, category, percent, n - 1);
      DiscountedTimesProperties(r, percent, n - 1);
    }
  }

  /** In a list without repeated references each object occurs once. */
  lemma DistinctOccursOnce(es: seq<Expense>, o: Expense)
    requires forall i, j :: 0 <= i < j < |es| ==> es[i] != es[j]
    requires o in es
    ensures multiset(es)[o] == 1
  {
    var k :| 0 <= k < |es| && es[k] == o;
    assert es == es[..k] + [o] + es[k + 1..];
    assert o !in es[..k] && o !in es[k + 1..];
    assert multiset(es) == multiset(es[..k]) + multiset{o} + multiset(es[k + 1..]);
  }

  // ---------------------------------------------------------------- import

  /** What `add_expense(Expense.from_dict(item))` makes of one item. */
  function Admitted(item: map<string, Value>): Result<Record, ServiceError>
  {
    Admit(FromDict(item))
  }

  /** What `add_expense` makes of a decoded record, or the decoding error. */
  function Admit(decoded: Result<Record, DecodeError>): (r: Result<Record, ServiceError>)
    ensures r.Success? <==> decoded.Success? && IsValid(decoded.value)
    ensures r.Success? ==> r.value == decoded.value
    ensures decoded.Failure? ==> r == Failure(Undecodable(decoded.error))
  {
    match decoded
    case Failure(e) => Failure(Undecodable(e))
    case Success(r) => if IsValid(r) then Success(r) else Failure(InvalidExpense)
  }

  /** What happens to each item, in order. */
  function Outcomes(items: seq<map<string, Value>>): (outs: seq<Result<Record, ServiceError>>)
    ensures |outs| == |items|
  {
    if items == [] then [] else [Admitted(items[0])] + Outcomes(items[1..])
  }

  /** Item `i` has the outcome `add_expense(Expense.from_dict(items[i]))` gives it. */
  lemma {:induction false} OutcomesAt(items: seq<map<string, Value>>, i: nat)
    requires i < |items|
    ensures Outcomes(items)[i] == Admitted(items[i])
  {
    if i > 0 {
      OutcomesAt(items[1..], i - 1);
    }
  }

  /** The number of leading successes: where a loop that stops at the first
    * failure stops. */
  function LeadingSuccesses(outs: seq<Result<Record, ServiceError>>): (k: nat)
    ensures k <= |outs| && (forall j :: 0 <= j < k ==> outs[j].Success?)
    ensures k < |outs| ==> outs[k].Failure?
  {
    if outs == [] || outs[0].Failure? then 0 else 1 + LeadingSuccesses(outs[1..])
  }

  /** The list after importing into a store holding `vs`, and the outcome:
    * records are appended until the first item that raises. */
  function Import(vs: seq<Record>, outs: seq<Result<Record, ServiceError>>): (r: (seq<Record>, Outcome<ServiceError>))
    decreases |outs|
  {
    if outs == [] then (vs, Pass)
    else match outs[0]
      case Failure(e) => (vs, Fail(e))
      case Success(x) => Import(vs + [x], outs[1..])
  }

  /** One step of the import: the outcome of the next item decides. */
  lemma ImportStep(vs: seq<Record>, outs: seq<Result<Record, ServiceError>>, i: nat)
    requires i < |outs|
    ensures outs[i].Failure? ==> Import(vs, outs[i..]) == (vs, Fail(outs[i].error))
    ensures outs[i].Success? ==> Import(vs, outs[i..]) == Import(vs + [outs[i].value], outs[i + 1..])
  {
    assert outs[i..][0] == outs[i] && outs[i..][1..] == outs[i + 1..];
  }

  /** Importing keeps the records already stored, appends exactly the leading
    * successes in order, and fails with the error of the first failure. */
  lemma {:induction false} ImportAppendsLeadingSuccesses(vs: seq<Record>, outs: seq<Result<Record, ServiceError>>)
    decreases |outs|
    ensures var r := Import(vs, outs);
            var k := LeadingSuccesses(outs);
            && |r.0| == |vs| + k && r.0[..|vs|] == vs
            && (forall i :: 0 <= i < k ==> r.0[|vs| + i] == outs[i].value)
            && (r.1.Pass? <==> k == |outs|)
            && (k < |outs| ==> r.1 == Fail(outs[k].error))
  {
    if outs != [] && outs[0].Success? {
      var x := outs[0].value;
      var r := Import(vs, outs);
      var k := LeadingSuccesses(outs);
      ImportAppendsLeadingSuccesses(vs + [x], outs[1..]);
      assert r.0[..|vs| + 1] == vs + [x];
      assert r.0[..|vs|] == (vs + [x])[..|vs|];
      forall i | 1 <= i < k ensures r.0[|vs| + i] == outs[i].value {
        assert outs[1..][i - 1] == outs[i];
      }
    }
  }

  // ---------------------------------------------------------------- the store

  /** After `i` visits of the loop of `categorize_all` over `es`, each object
    * has been recategorised once per reference among the first `i`. */
  ghost predicate Recategorizing(es: seq<Expense>, i: nat, mapping: map<string, string>, start: map<Expense, Record>)
    requires i <= |es|
    reads set o | o in es
  {
    forall o :: o in es ==> o in start && o.Value() == RecategorizedTimes(start[o], mapping, multiset(es[..i])[o])
  }

  /** One visit of the loop of `categorize_all`. */
  method CategorizeVisit(es: seq<Expense>, i: nat, mapping: map<string, string>, ghost start: map<Expense, Record>)
    requires i < |es| && Recategorizing(es, i, mapping, start)
    modifies es[i]
    ensures Recategorizing(es, i + 1, mapping, start)
  {
    var e := es[i];
    ghost var n := multiset(es[..i])[e];
    assert e.Value() == RecategorizedTimes(start[e], mapping, n);
    CountStep(es, i);
    e.Categorize(mapping);
    assert e.Value() == RecategorizedTimes(start[e], mapping, n + 1);
    forall o | o in es
      ensures o in start && o.Value() == RecategorizedTimes(start[o], mapping, multiset(es[..i + 1])[o])
    {
      if o != e {
        assert o.Value() == old(o.Value());
      }
    }
  }

  /** After `i` visits of the loop of `apply_discount_to_category` over `es`. */
  ghost predicate Discounting(es: seq<Expense>, i: nat, category: string, percent: real, start: map<Expense, Record>)
    requires i <= |es|
    reads set o | o in es
  {
    forall o :: o in es ==> o in start && o.Value() == DiscountVisits(start[o], category, percent, multiset(es[..i])[o])
  }

  /** One visit of the loop of `apply_discount_to_category`. */
  method DiscountVisit(es: seq<Expense>, i: nat, category: string, percent: real, ghost start: map<Expense, Record>)
    requires i < |es| && Discounting(es, i, category, percent, start)
    modifies es[i]
    ensures Discounting(es, i + 1, category, percent, start)
  {
    var e := es[i];
    ghost var n := multiset(es[..i])[e];
    ghost var prev := e.Value();
    assert prev == DiscountVisits(start[e], category, percent, n);
    CountStep(es, i);
    if MatchesCategory(e.Value(), category) {
      e.ApplyDiscount(percent);
    }
    assert e.Value() == if MatchesCategory(prev, category) then Discounted(prev, percent) else prev;
    assert e.Value() == DiscountVisits(start[e], category, percent, n + 1);
    forall o | o in es
      ensures o in start && o.Value() == DiscountVisits(start[o], category, percent, multiset(es[..i + 1])[o])
    {
      if o != e {
        assert o.Value() == old(o.Value());
      }
    }
  }

  class ExpenseService {
    var expenses: seq<Expense>

    constructor ()
      ensures expenses == []
    {
      expenses := [];
    }

    /** `add_expense`: appends a valid expense; an invalid one raises and
      * leaves the list as it was. No id is assigned. */
    method AddExpense(e: Expense) returns (outcome: Outcome<ServiceError>)
      modifies this
      ensures IsValid(e.Value()) ==> outcome == Pass && expenses == old(expenses) + [e]
      ensures !IsValid(e.Value()) ==> outcome == Fail(InvalidExpense) && expenses == old(expenses)
    {
      if !IsValid(e.Value()) {
        return Fail(InvalidExpense);
      }
      expenses := expenses + [e];
      return Pass;
    }

    /** `get_all_expenses`: the stored references, in the order they were added. */
    function GetAllExpenses(): (r: seq<Expense>)
      reads this
      ensures |r| == |expenses| && forall i :: 0 <= i < |r| ==> r[i] == expenses[i]
    {
      expenses
    }

    /** `get_expense_by_id`: the first expense whose id is `id`. */
    function GetExpenseById(id: int): (r: Option<Expense>)
      reads this, expenses
      ensures r.None? <==> forall i :: 0 <= i < |expenses| ==> expenses[i].id != Some(id)
      ensures r.Some? ==> exists k :: 0 <= k < |expenses| && expenses[k] == r.value
                               && r.value.id == Some(id)
                               && forall j :: 0 <= j < k ==> expenses[j].id != Some(id)
    {
      var k := IdIndex(Values(expenses), id);
      if k < |expenses| then Some(expenses[k]) else None
    }

    /** `delete_expense`: looks the id up and then calls `list.remove` on the
      * object found, which deletes the first element equal to it, ids
      * ignored. */
    method DeleteExpense(id: int) returns (removed: bool)
      modifies this
      ensures var vs := old(Values(expenses));
              var k := IdIndex(vs, id);
              && (removed <==> k < |vs|)
              && (!removed ==> expenses == old(expenses))
              && (removed ==>
                    var j := RemovalIndex(vs, vs[k]);
                    j <= k && expenses == old(expenses)[..j] + old(expenses)[j + 1..])
    {
      var vs := Values(expenses);
      var k := IdIndex(vs, id);
      if k == |expenses| {
        return false;
      }
      RemovalIndexAtMost(vs, k);
      var j := RemovalIndex(vs, vs[k]);
      expenses := expenses[..j] + expenses[j + 1..];
      return true;
    }

    /** `update_expense`: applies `update(**kwargs)` to the expense found,
      * every reference to which sees the change; the list and all other
      * objects stay as they were. */
    method UpdateExpense(id: int, kwargs: seq<(string, Value)>) returns (found: bool)
      modifies expenses
      ensures expenses == old(expenses)
      ensures found <==> old(GetExpenseById(id)).Some?
      ensures found ==> var t := old(GetExpenseById(id)).value;
                        t.Value() == Updated(old(t.Value()), kwargs)
                        && forall o :: o in expenses && o != t ==> o.Value() == old(o.Value())
      ensures !found ==> forall o :: o in expenses ==> o.Value() == old(o.Value())
    {
      var e := GetExpenseById(id);
      if e.None? {
        return false;
      }
      e.value.Update(kwargs);
      return true;
    }

    /** `filter_expenses_by_category`. */
    function FilterExpensesByCategory(category: string): (r: seq<Expense>)
      reads this, expenses
      ensures IsSubsequence(r, expenses)
      ensures forall x :: x in r ==> x in expenses && MatchesCategory(x.Value(), category)
      ensures forall x :: x in expenses && MatchesCategory(x.Value(), category) ==> x in r
    {
      Where(expenses, ByCategory(category))
    }

    /** `filter_expenses_by_date_range`. */
    function FilterExpensesByDateRange(start: Timestamp, end: Timestamp): (r: seq<Expense>)
      reads this, expenses
      ensures IsSubsequence(r, expenses)
      ensures forall x :: x in r ==> x in expenses && IsWithinDateRange(x.Value(), start, end)
      ensures forall x :: x in expenses && IsWithinDateRange(x.Value(), start, end) ==> x in r
    {
      Where(expenses, ByDateRange(start, end))
    }

    /** `get_expenses_containing_keyword`. */
    function GetExpensesContainingKeyword(keyword: string): (r: seq<Expense>)
      reads this, expenses
      ensures IsSubsequence(r, expenses)
      ensures forall x :: x in r ==> x in expenses && ContainsKeyword(x.Value(), keyword)
      ensures forall x :: x in expenses && ContainsKeyword(x.Value(), keyword) ==> x in r
    {
      Where(expenses, ByKeyword(keyword))
    }

    /** `total_amount`. */
    function TotalAmount(): (t: real)
      reads this, expenses
      ensures expenses == [] ==> t == 0.0
    {
      Total(Values(expenses))
    }

    /** `average_amount`: the total divided by the count, or 0 for an empty list. */
    function AverageAmount(): (a: real)
      reads this, expenses
      ensures expenses == [] ==> a == 0.0
      ensures expenses != [] ==> a * (|expenses| as real) == TotalAmount()
    {
      if expenses == [] then 0.0 else TotalAmount() / (|expenses| as real)
    }

    /** The average lies between the smallest and the largest amount. */
    lemma AverageIsBounded(lo: real, hi: real)
      requires expenses != []
      requires forall i :: 0 <= i < |expenses| ==> lo <= expenses[i].amount <= hi
      ensures lo <= AverageAmount() <= hi
    {
      var vs := Values(expenses);
      assert forall i :: 0 <= i < |vs| ==> vs[i].amount == expenses[i].amount;
      MeanIsBounded(vs, lo, hi);
    }

    /** `total_amount_by_category`: one entry per category present (compared
      * exactly, case included) holding the sum of its amounts. */
    method TotalAmountByCategory() returns (totals: map<string, real>)
      ensures TotalsOf(totals, Values(expenses))
    {
      var vs := Values(expenses);
      totals := map[];
      var i := 0;
      while i < |vs|
        invariant 0 <= i <= |vs|
        invariant TotalsOf(totals, vs[..i])
      {
        var r := vs[i];
        assert vs[..i + 1] == vs[..i] + [r];
        TotalsStep(totals, vs[..i], r);
        totals := Credit(totals, r);
        i := i + 1;
      }
      assert vs[..|vs|] == vs;
    }

    /** `find_duplicates`: in list order, every element whose key (all fields
      * but the id) occurred at an earlier position. */
    method FindDuplicates() returns (dups: seq<Expense>)
      ensures var ks := Keys(Values(expenses));
              dups == Pick(expenses, DuplicateIndices(ks))
    {
      var es := expenses;
      var ks := Keys(Values(es));
      var seen: set<DupKey> := {};
      dups := [];
      var i := 0;
      while i < |es|
        invariant 0 <= i <= |es|
        invariant seen == set k | k in ks[..i]
        invariant dups == Pick(es, DuplicateIndices(ks[..i]))
      {
        var key := ks[i];
        DuplicatesStep(es, ks, i);
        SeenStep(ks, i);
        if key in seen {
          dups := dups + [es[i]];
        } else {
          seen := seen + {key};
        }
        i := i + 1;
      }
      assert ks[..|es|] == ks;
    }

    /** `get_recent_expenses(limit)`: `sorted(expenses, key=date,
      * reverse=True)[:limit]`. */
    function GetRecentExpenses(limit: int := 5): (r: seq<Expense>)
      reads this, expenses
      ensures |r| == SliceLength(|expenses|, limit)
      ensures multiset(r) <= multiset(expenses)
    {
      var s := Stamps(expenses);
      var sorted := SortNewestFirst(s);
      var k := SliceLength(|expenses|, limit);
      RecentIsPartOfList(expenses, sorted, k);
      Elements(sorted[..k])
    }

    /** The result is newest first. */
    lemma RecentIsNewestFirst(limit: int)
      ensures var r := GetRecentExpenses(limit);
              forall i, j :: 0 <= i < j < |r| ==> r[j].date.AtMost(r[i].date)
    {
      var sorted := SortNewestFirst(Stamps(expenses));
      SortIsNewestFirst(Stamps(expenses));
      StampsStayTrue(expenses, sorted);
    }

    /** Every element left out is no later than every element returned. */
    lemma RecentLeavesOutOnlyOlder(limit: int)
      ensures var r := GetRecentExpenses(limit);
              forall x, y :: x in r && y in expenses && y !in r ==> y.date.AtMost(x.date)
    {
      var s := Stamps(expenses);
      var sorted := SortNewestFirst(s);
      var k := SliceLength(|expenses|, limit);
      var r := GetRecentExpenses(limit);
      SortIsNewestFirst(s);
      StampsStayTrue(expenses, sorted);
      forall x, y | x in r && y in expenses && y !in r ensures y.date.AtMost(x.date) {
        var n :| 0 <= n < |expenses| && expenses[n] == y;
        assert s[n] in multiset(sorted);
        var m :| 0 <= m < |sorted| && sorted[m] == s[n];
        PrefixHolds(sorted, k, m);
      }
    }

    /** `categorize_all`: `categorize(mapping)` on every element in turn, so
      * an object is recategorised once per reference to it in the list. */
    method CategorizeAll(mapping: map<string, string>)
      modifies expenses
      ensures expenses == old(expenses)
      ensures forall o :: o in expenses ==>
                o.Value() == RecategorizedTimes(old(o.Value()), mapping, multiset(expenses)[o])
    {
      var es := expenses;
      ghost var start := map o | o in es :: o.Value();
      var i := 0;
      while i < |es|
        invariant 0 <= i <= |es|
        invariant Recategorizing(es, i, mapping, start)
      {
        CategorizeVisit(es, i, mapping, start);
        i := i + 1;
      }
      CountAll(es);
    }

    /** `apply_discount_to_category`: the discount is applied, once per
      * reference, to the objects whose category matches; the discount does
      * not change the category, so the match is the same on every visit. */
    method ApplyDiscountToCategory(category: string, percent: real)
      modifies expenses
      ensures expenses == old(expenses)
      ensures forall o :: o in expenses ==>
                o.Value() == DiscountVisits(old(o.Value()), category, percent, multiset(expenses)[o])
    {
      var es := expenses;
      ghost var start := map o | o in es :: o.Value();
      var i := 0;
      while i < |es|
        invariant 0 <= i <= |es|
        invariant Discounting(es, i, category, percent, start)
      {
        DiscountVisit(es, i, category, percent, start);
        i := i + 1;
      }
      CountAll(es);
    }

    /** One item of the import: `add_expense(Expense.from_dict(item))`. */
    method ImportOne(item: map<string, Value>, ghost vals: seq<Record>) returns (outcome: Outcome<ServiceError>, added: Option<Expense>)
      requires |vals| == |expenses| && forall j :: 0 <= j < |expenses| ==> expenses[j].Value() == vals[j]
      modifies this
      ensures outcome.Pass? <==> Admitted(item).Success?
      ensures outcome.Fail? ==> outcome == Fail(Admitted(item).error) && expenses == old(expenses)
      ensures outcome.Pass? ==> added.Some? && fresh(added.value) && added.value.Value() == Admitted(item).value
                                && expenses == old(expenses) + [added.value]
      ensures var now := if outcome.Pass? then vals + [Admitted(item).value] else vals;
              |now| == |expenses| && forall j :: 0 <= j < |expenses| ==> expenses[j].Value() == now[j]
    {
      var decoded := FromDict(item);
      if decoded.Failure? {
        return Fail(Undecodable(decoded.error)), None;
      }
      var e;
      outcome, e := AddRecord(decoded.value, vals);
      added := Some(e);
    }

    /** `add_expense(Expense(**fields))` on a freshly built object. */
    method AddRecord(r: Record, ghost vals: seq<Record>) returns (outcome: Outcome<ServiceError>, e: Expense)
      requires |vals| == |expenses| && forall j :: 0 <= j < |expenses| ==> expenses[j].Value() == vals[j]
      modifies this
      ensures fresh(e) && e.Value() == r
      ensures outcome == (if IsValid(r) then Pass else Fail(InvalidExpense))
      ensures expenses == if IsValid(r) then old(expenses) + [e] else old(expenses)
      ensures var now := if IsValid(r) then vals + [r] else vals;
              |now| == |expenses| && forall j :: 0 <= j < |expenses| ==> expenses[j].Value() == now[j]
    {
      ghost var prev := expenses;
      e := new Expense(r);
      assert forall j :: 0 <= j < |prev| ==> prev[j].Value() == vals[j];
      outcome := AddExpense(e);
      assert forall j :: 0 <= j < |prev| ==> prev[j].Value() == vals[j];
      if IsValid(r) {
        AppendedValues(prev, vals, e, r);
      }
    }

    /** The per-item loop of `import_from_json` over decoded items: each item
      * goes through `from_dict` and `add_expense`; the first one that raises
      * stops the loop, and the items added before it stay. The list keeps
      * its old objects in front and holds the records `Import` describes. */
    method ImportItems(items: seq<map<string, Value>>) returns (outcome: Outcome<ServiceError>)
      modifies this
      ensures var r := Import(old(Values(expenses)), Outcomes(items));
              && |expenses| == |r.0| && outcome == r.1
              && forall j :: 0 <= j < |expenses| ==> expenses[j].Value() == r.0[j]
      ensures |expenses| >= |old(expenses)| && expenses[..|old(expenses)|] == old(expenses)
    {
      var n := |expenses|;
      ghost var start := Values(expenses);
      ghost var vals := start;
      ghost var outs := Outcomes(items);
      ghost var final := Import(start, outs);
      outcome := Pass;
      var i := 0;
      assert outs[0..] == outs;
      while i < |items| && outcome.Pass?
        invariant 0 <= i <= |items|
        invariant |expenses| >= n && expenses[..n] == old(expenses)
        invariant |vals| == |expenses| && forall j :: 0 <= j < |expenses| ==> expenses[j].Value() == vals[j]
        invariant outcome.Pass? ==> final == Import(vals, outs[i..])
        invariant outcome.Fail? ==> final == (vals, outcome)
      {
        OutcomesAt(items, i);
        ImportStep(vals, outs, i);
        ghost var prev := expenses;
        var added;
        outcome, added := ImportOne(items[i], vals);
        if outcome.Pass? {
          assert expenses[..n] == prev[..n];
          vals := vals + [outs[i].value];
        }
        i := i + 1;
      }
      assert outcome.Pass? ==> outs[i..] == [];
    }
  }

}
