/**
 * The expense record of app/models/expense.py: its value (`Record`), the
 * predicates and transformations on it, the flat-map serialiser, and the
 * mutable `Expense` object that the store keeps references to.
 */
module Expenses {
  import opened Wrappers
  import opened Text
  import opened Calendar
  import opened IsoFormat

  /** The six fields of the dataclass, as one immutable value. `amount` is a
    * real number rather than a binary float. */
  datatype Record = Record(id: Option<int>, userId: int, amount: real,
                           category: string, description: string, date: Timestamp)

  // ---------------------------------------------------------------- predicates

  /** `is_valid`: a positive amount, and a category and a description that are
    * not blank once stripped. */
  predicate IsValid(r: Record) {
    r.amount > 0.0 && Strip(r.category) != [] && Strip(r.description) != []
  }

  /** A record is valid exactly when its amount is positive and both texts hold
    * a character that is not whitespace. */
  lemma IsValidIff(r: Record)
    ensures IsValid(r) <==> r.amount > 0.0 && !AllSpace(r.category) && !AllSpace(r.description)
  {
    StripEmptyIffAllSpace(r.category);
    StripEmptyIffAllSpace(r.description);
  }

  /** `matches_category`: `category.lower() == target.lower()`. */
  predicate MatchesCategory(r: Record, target: string) {
    Lower(r.category) == Lower(target)
  }

  /** The category match ignores ASCII case, is symmetric in the two names,
    * and is unaffected by lowering the target first. */
  lemma MatchesCategoryProperties(r: Record, target: string)
    ensures MatchesCategory(r, target) <==>
              |r.category| == |target|
              && forall i :: 0 <= i < |target| ==> LowerChar(r.category[i]) == LowerChar(target[i])
    ensures MatchesCategory(r, target) <==> MatchesCategory(r.(category := target), r.category)
    ensures MatchesCategory(r, Lower(target)) <==> MatchesCategory(r, target)
    ensures MatchesCategory(r, r.category)
  {
    LowerEqIffCaseless(r.category, target);
    LowerIdempotent(target);
  }

  /** `is_within_date_range`: `start <= date <= end`. */
  predicate IsWithinDateRange(r: Record, start: Timestamp, end: Timestamp) {
    start.AtMost(r.date) && r.date.AtMost(end)
  }

  /** The range includes both of its ends, and is empty when it is reversed. */
  lemma DateRangeProperties(r: Record, start: Timestamp, end: Timestamp)
    ensures start.AtMost(end) ==> (r.date == start || r.date == end) ==> IsWithinDateRange(r, start, end)
    ensures end.Before(start) ==> !IsWithinDateRange(r, start, end)
  {
    AtMostIsTotalOrder(start, r.date, end);
    AtMostIsTotalOrder(r.date, end, start);
  }

  /** `contains_keyword`: `keyword.lower() in description.lower()`. */
  predicate ContainsKeyword(r: Record, keyword: string) {
    IsInfix(Lower(keyword), Lower(r.description))
  }

  /** The keyword test finds the lowered keyword at some offset of the lowered
    * description; the empty keyword is found in every description. */
  lemma ContainsKeywordProperties(r: Record, keyword: string)
    ensures ContainsKeyword(r, keyword) <==> exists i :: OccursAt(Lower(keyword), Lower(r.description), i)
    ensures ContainsKeyword(r, "")
  {
    IsInfixIffAtOffset(Lower(keyword), Lower(r.description));
    EmptyIsInfix(Lower(r.description));
  }

  // ---------------------------------------------------------------- equality

  /** `__eq__`: all fields but `id` agree. */
  predicate Same(a: Record, b: Record) {
    a.userId == b.userId && a.amount == b.amount && a.category == b.category
    && a.description == b.description && a.date == b.date
  }

  /** Equality ignores exactly the id: two records are equal when they differ
    * at most in their ids, and it is an equivalence. */
  lemma SameIgnoresId(a: Record, b: Record, c: Record)
    ensures Same(a, b) <==> a.(id := b.id) == b
    ensures Same(a, a)
    ensures Same(a, b) ==> Same(b, a)
    ensures Same(a, b) && Same(b, c) ==> Same(a, c)
  {
  }

  /** The tuple `find_duplicates` compares: every field but `id`. */
  type DupKey = (int, real, string, string, Timestamp)

  function Key(r: Record): (k: DupKey)
  {
    (r.userId, r.amount, r.category, r.description, r.date)
  }

  /** Two records have the same duplicate key exactly when they are equal. */
  lemma KeyIffSame(a: Record, b: Record)
    ensures Key(a) == Key(b) <==> Same(a, b)
  {
  }

  /** `clone(new_id)`: a copy carrying `new_id`. */
  function CloneOf(r: Record, newId: Option<int> := None): (c: Record)
    ensures c.id == newId && Same(c, r)
  {
    Record(newId, r.userId, r.amount, r.category, r.description, r.date)
  }

  // ---------------------------------------------------------------- mutators as values

  /** `apply_discount(percent)`: `amount -= amount * (percent / 100)` when
    * `0 < percent < 100`, otherwise nothing. */
  function Discounted(r: Record, percent: real): (d: Record)
    ensures d == r.(amount := d.amount)
    ensures 0.0 < percent < 100.0 ==> d.amount == r.amount * (1.0 - percent / 100.0)
    ensures !(0.0 < percent < 100.0) ==> d == r
  {
    if 0.0 < percent < 100.0 then r.(amount := r.amount - r.amount * (percent / 100.0)) else r
  }

  /** A discount keeps a positive amount positive and makes it smaller. */
  lemma DiscountShrinksPositiveAmount(r: Record, percent: real)
    requires 0.0 < percent < 100.0 && r.amount > 0.0
    ensures 0.0 < Discounted(r, percent).amount < r.amount
  {
    var f := 1.0 - percent / 100.0;
    assert 0.0 < f < 1.0;
    assert Discounted(r, percent).amount == r.amount * f;
  }

  /** `categorize(mapping)`: the category becomes `mapping[category.lower()]`
    * when that key is present. */
  function Recategorized(r: Record, mapping: map<string, string>): (c: Record)
    ensures c == r.(category := c.category)
    ensures Lower(r.category) in mapping ==> c.category == mapping[Lower(r.category)]
    ensures Lower(r.category) !in mapping ==> c == r
  {
    var key := Lower(r.category);
    if key in mapping then r.(category := mapping[key]) else r
  }

  // ---------------------------------------------------------------- dynamic values

  /** The values a keyword argument or a dictionary entry can carry. */
  datatype Value = NoneValue | IntValue(i: int) | RealValue(x: real) | TextValue(s: string)
                 | DateValue(t: Timestamp)

  /** The attribute names of the six fields. */
  const FieldNames: set<string> := {"id", "user_id", "amount", "category", "description", "date"}

  /** A field of `r` as the value `getattr` would return. */
  function FieldValue(r: Record, name: string): (v: Value)
    ensures name !in FieldNames ==> v == NoneValue
  {
    if name == "id" then (if r.id.Some? then IntValue(r.id.value) else NoneValue)
    else if name == "user_id" then IntValue(r.userId)
    else if name == "amount" then RealValue(r.amount)
    else if name == "category" then TextValue(r.category)
    else if name == "description" then TextValue(r.description)
    else if name == "date" then DateValue(r.date)
    else NoneValue
  }

  /** Whether field `name` can hold `v`: the kinds the annotations allow, with
    * an integer accepted for the amount. */
  predicate Fits(name: string, v: Value) {
    (name == "id" && (v.NoneValue? || v.IntValue?))
    || (name == "user_id" && v.IntValue?)
    || (name == "amount" && (v.IntValue? || v.RealValue?))
    || ((name == "category" || name == "description") && v.TextValue?)
    || (name == "date" && v.DateValue?)
  }

  /** What reading the field back gives after storing `v` in it. */
  function Stored(name: string, v: Value): Value {
    if name == "amount" && v.IntValue? then RealValue(v.i as real) else v
  }

  /** One `setattr(self, name, v)` of `update`. A name that is not a field, or
    * a value the field cannot hold, leaves the record as it is. */
  function Assign(r: Record, name: string, v: Value): (a: Record)
    ensures Fits(name, v) ==> FieldValue(a, name) == Stored(name, v)
    ensures forall other :: other != name ==> FieldValue(a, other) == FieldValue(r, other)
    ensures !Fits(name, v) ==> a == r
  {
    if !Fits(name, v) then r
    else if name == "id" then r.(id := if v.IntValue? then Some(v.i) else None)
    else if name == "user_id" then r.(userId := v.i)
    else if name == "amount" then r.(amount := if v.IntValue? then v.i as real else v.x)
    else if name == "category" then r.(category := v.s)
    else if name == "description" then r.(description := v.s)
    else r.(date := v.t)
  }

  /** `update(**kwargs)`: the assignments made in order. */
  function Updated(r: Record, kwargs: seq<(string, Value)>): Record
  {
    if kwargs == [] then r
    else Assign(Updated(r, kwargs[..|kwargs| - 1]), kwargs[|kwargs| - 1].0, kwargs[|kwargs| - 1].1)
  }

  predicate Mentions(kwargs: seq<(string, Value)>, name: string) {
    exists i :: 0 <= i < |kwargs| && kwargs[i].0 == name
  }

  /** A field no keyword names keeps its value. */
  lemma {:induction false} UpdateKeepsUnmentioned(r: Record, kwargs: seq<(string, Value)>, name: string)
    requires !Mentions(kwargs, name)
    ensures FieldValue(Updated(r, kwargs), name) == FieldValue(r, name)
  {
    if kwargs != [] {
      var front := kwargs[..|kwargs| - 1];
      assert !Mentions(front, name) by {
        forall i | 0 <= i < |front| ensures front[i].0 != name {
          assert front[i] == kwargs[i];
        }
      }
      UpdateKeepsUnmentioned(r, front, name);
      assert kwargs[|kwargs| - 1].0 != name;
    }
  }

  /** The last keyword naming a field decides it, when its value fits. */
  lemma {:induction false} UpdateLastAssignmentWins(r: Record, before: seq<(string, Value)>,
                                                    name: string, v: Value, after: seq<(string, Value)>)
    requires Fits(name, v) && !Mentions(after, name)
    ensures FieldValue(Updated(r, before + [(name, v)] + after), name) == Stored(name, v)
    decreases |after|
  {
    var kwargs := before + [(name, v)] + after;
    if after == [] {
      assert kwargs[..|kwargs| - 1] == before;
    } else {
      var front := after[..|after| - 1];
      assert kwargs[..|kwargs| - 1] == before + [(name, v)] + front;
      assert !Mentions(front, name) by {
        forall i | 0 <= i < |front| ensures front[i].0 != name {
          assert front[i] == after[i];
        }
      }
      UpdateLastAssignmentWins(r, before, name, v, front);
      assert after[|after| - 1].0 != name;
    }
  }

  /** Keywords that are not field names change nothing. */
  lemma {:induction false} UpdateIgnoresUnknownNames(r: Record, kwargs: seq<(string, Value)>)
    requires forall i :: 0 <= i < |kwargs| ==> kwargs[i].0 !in FieldNames
    ensures Updated(r, kwargs) == r
  {
    if kwargs != [] {
      UpdateIgnoresUnknownNames(r, kwargs[..|kwargs| - 1]);
    }
  }

  /** `update` does not check `is_valid` again: setting the amount of any
    * record to zero makes it invalid. */
  lemma UpdateDoesNotRevalidate(r: Record)
    ensures !IsValid(Updated(r, [("amount", IntValue(0))]))
  {
    assert [("amount", IntValue(0))][..0] == [];
  }

  // ---------------------------------------------------------------- serialisation

  /** `to_dict`: the fields under their attribute names, the date as its
    * `isoformat()` text. */
  function ToDict(r: Record): (m: map<string, Value>)
    ensures m.Keys == FieldNames
    ensures forall name :: name in FieldNames && name != "date" ==> m[name] == FieldValue(r, name)
    ensures m["date"] == TextValue(Format(r.date))
  {
    map["id" := FieldValue(r, "id"), "user_id" := IntValue(r.userId),
        "amount" := RealValue(r.amount), "category" := TextValue(r.category),
        "description" := TextValue(r.description), "date" := TextValue(Format(r.date))]
  }

  /** Why `from_dict` raises: a required key is absent (`KeyError`), a value
    * is of a kind the field cannot hold, or the date text does not parse
    * (`ValueError`). */
  datatype DecodeError = MissingKey(name: string) | WrongKind(name: string) | BadDate(text: string)

  /** The keys `from_dict` reads with `data[...]`, in the order it reads them. */
  const RequiredKeys: seq<string> := ["user_id", "amount", "category", "description", "date"]

  function DecodeId(m: map<string, Value>): Result<Option<int>, DecodeError> {
    if "id" !in m || m["id"].NoneValue? then Success(None)
    else if m["id"].IntValue? then Success(Some(m["id"].i))
    else Failure(WrongKind("id"))
  }

  function DecodeInt(m: map<string, Value>, name: string): Result<int, DecodeError> {
    if name !in m then Failure(MissingKey(name))
    else if m[name].IntValue? then Success(m[name].i)
    else Failure(WrongKind(name))
  }

  function DecodeAmount(m: map<string, Value>): Result<real, DecodeError> {
    if "amount" !in m then Failure(MissingKey("amount"))
    else if m["amount"].IntValue? then Success(m["amount"].i as real)
    else if m["amount"].RealValue? then Success(m["amount"].x)
    else Failure(WrongKind("amount"))
  }

  function DecodeText(m: map<string, Value>, name: string): Result<string, DecodeError> {
    if name !in m then Failure(MissingKey(name))
    else if m[name].TextValue? then Success(m[name].s)
    else Failure(WrongKind(name))
  }

  /** `datetime.fromisoformat(data["date"])`. */
  function DecodeDate(m: map<string, Value>): Result<Timestamp, DecodeError> {
    if "date" !in m then Failure(MissingKey("date"))
    else if !m["date"].TextValue? then Failure(WrongKind("date"))
    else match Parse(m["date"].s)
         case Some(t) => Success(t)
         case None => Failure(BadDate(m["date"].s))
  }

  /** `from_dict`: the arguments are evaluated in order, so the first failing
    * key decides the error; `id` is optional (`data.get`). */
  function FromDict(m: map<string, Value>): (r: Result<Record, DecodeError>)
    ensures r.Success? ==> forall k :: k in RequiredKeys ==> k in m
  {
    var id :- DecodeId(m);
    var userId :- DecodeInt(m, "user_id");
    var amount :- DecodeAmount(m);
    var category :- DecodeText(m, "category");
    var description :- DecodeText(m, "description");
    var date :- DecodeDate(m);
    Success(Record(id, userId, amount, category, description, date))
  }

  /** Decoding what `to_dict` produced gives back every field, the id included. */
  lemma FromDictToDict(r: Record)
    ensures FromDict(ToDict(r)) == Success(r)
  {
    ParseFormat(r.date);
  }

  /** Without its `id` entry a dictionary decodes to the record with no id. */
  lemma FromDictWithoutId(r: Record)
    ensures FromDict(ToDict(r) - {"id"}) == Success(r.(id := None))
  {
    var m := ToDict(r) - {"id"};
    assert DecodeId(m) == Success(None);
    assert m["user_id"] == IntValue(r.userId) && m["amount"] == RealValue(r.amount);
    assert m["category"] == TextValue(r.category) && m["description"] == TextValue(r.description);
    assert m["date"] == TextValue(Format(r.date));
    ParseFormat(r.date);
  }

  /** A missing required key is an error naming the first such key. */
  lemma FromDictMissingKey(m: map<string, Value>, i: nat)
    requires i < |RequiredKeys| && RequiredKeys[i] !in m
    requires forall j :: 0 <= j < i ==> RequiredKeys[j] in m && Fits(RequiredKeys[j], m[RequiredKeys[j]])
    requires DecodeId(m).Success?
    ensures FromDict(m) == Failure(MissingKey(RequiredKeys[i]))
  {
    if i > 0 {
      assert "user_id" in m && Fits("user_id", m["user_id"]) by { assert RequiredKeys[0] == "user_id"; }
    }
    if i > 1 {
      assert "amount" in m && Fits("amount", m["amount"]) by { assert RequiredKeys[1] == "amount"; }
    }
    if i > 2 {
      assert "category" in m && Fits("category", m["category"]) by { assert RequiredKeys[2] == "category"; }
    }
    if i > 3 {
      assert "description" in m && Fits("description", m["description"]) by {
        assert RequiredKeys[3] == "description";
      }
    }
  }

  // ---------------------------------------------------------------- the object

  /** An `Expense` instance: its fields are updated in place by the mutators,
    * and the store holds references to such objects. */
  class Expense {
    var id: Option<int>
    var userId: int
    var amount: real
    var category: string
    var description: string
    var date: Timestamp

    /** The record the fields currently hold. */
    function Value(): Record
      reads this
    {
      Record(id, userId, amount, category, description, date)
    }

    constructor (r: Record)
      ensures Value() == r
    {
      id, userId, amount := r.id, r.userId, r.amount;
      category, description, date := r.category, r.description, r.date;
    }

    /** `update(**kwargs)`: one `setattr` per keyword, in order. */
    method Update(kwargs: seq<(string, Value)>)
      modifies this
      ensures Value() == Updated(old(Value()), kwargs)
    {
      var i := 0;
      while i < |kwargs|
        invariant 0 <= i <= |kwargs|
        invariant Value() == Updated(old(Value()), kwargs[..i])
      {
        var (name, v) := kwargs[i];
        assert kwargs[..i + 1][..i] == kwargs[..i];
        if Fits(name, v) {
          if name == "id" {
            id := if v.IntValue? then Some(v.i) else None;
          } else if name == "user_id" {
            userId := v.i;
          } else if name == "amount" {
            amount := if v.IntValue? then v.i as real else v.x;
          } else if name == "category" {
            category := v.s;
          } else if name == "description" {
            description := v.s;
          } else {
            date := v.t;
          }
        }
        i := i + 1;
      }
      assert kwargs[..|kwargs|] == kwargs;
    }

    /** `apply_discount(percent)`. */
    method ApplyDiscount(percent: real)
      modifies this
      ensures Value() == Discounted(old(Value()), percent)
    {
      if 0.0 < percent < 100.0 {
        amount := amount - amount * (percent / 100.0);
      }
    }

    /** `categorize(mapping)`. */
    method Categorize(mapping: map<string, string>)
      modifies this
      ensures Value() == Recategorized(old(Value()), mapping)
    {
      var key := Lower(category);
      if key in mapping {
        category := mapping[key];
      }
    }

    /** `clone(new_id)`: a new object; this one is not changed. */
    method Clone(newId: Option<int> := None) returns (c: Expense)
      ensures fresh(c) && c.Value() == CloneOf(Value(), newId)
    {
      c := new Expense(CloneOf(Value(), newId));
    }
  }

  // ---------------------------------------------------------------- filters

  /** The conditions the list filters test. */
  datatype Query = ByCategory(category: string) | ByDateRange(start: Timestamp, end: Timestamp)
                 | ByKeyword(keyword: string)

  predicate Holds(q: Query, r: Record) {
    match q
    case ByCategory(c) => MatchesCategory(r, c)
    case ByDateRange(s, e) => IsWithinDateRange(r, s, e)
    case ByKeyword(k) => ContainsKeyword(r, k)
  }

  /** `r` is `s` with some elements left out, the rest in their order. */
  predicate IsSubsequence<T(==)>(r: seq<T>, s: seq<T>)
    decreases |s|
  {
    r == [] || (s != [] && ((r[0] == s[0] && IsSubsequence(r[1..], s[1..])) || IsSubsequence(r, s[1..])))
  }

  /** `[e for e in expenses if <q holds of e>]`, as `filter_by_category`,
    * `filter_by_date_range` and the keyword search compute it. */
  function Where(es: seq<Expense>, q: Query): (r: seq<Expense>)
    reads es
    ensures IsSubsequence(r, es)
    ensures forall x :: x in r ==> x in es && Holds(q, x.Value())
    ensures forall x :: x in es && Holds(q, x.Value()) ==> x in r
  {
    if es == [] then []
    else
      var rest := Where(es[1..], q);
      if Holds(q, es[0].Value()) then [es[0]] + rest else rest
  }

  /** Each selected object occurs in the result as often as in the input, and
    * every other one not at all. */
  lemma {:induction false} WhereCounts(es: seq<Expense>, q: Query, x: Expense)
    ensures multiset(Where(es, q))[x] == if x in es && Holds(q, x.Value()) then multiset(es)[x] else 0
  {
    if es != [] {
      var rest := Where(es[1..], q);
      WhereCounts(es[1..], q, x);
      assert es == [es[0]] + es[1..];
      assert multiset(es) == multiset([es[0]]) + multiset(es[1..]);
      if Holds(q, es[0].Value()) {
        assert multiset(Where(es, q)) == multiset([es[0]]) + multiset(rest);
      }
    }
  }
}
