/**
 * Event categories and event instances (db_backend/events.py). The category
 * registry is a pair of class-level dictionaries that `make` fills: id to
 * category, and tag to id. Lookups fall back to an "unknown" category.
 */
module Events {
  import opened Calendar

  datatype Category = Category(id: int, tag: string, name: string)

  /** `EventCategory._unknown()`: the category of an unregistered id or tag. */
  function Unknown(): (c: Category)
    ensures c.id == -1 && c.tag == "unknown" && c.name == "(UNBEKANNT)"
  {
    Category(-1, "unknown", "(UNBEKANNT)")
  }

  /** Ascending by id, as `sorted(..., key=lambda x: x.id)` leaves a list. */
  predicate SortedById(s: seq<Category>) {
    forall i, j :: 0 <= i < j < |s| ==> s[i].id <= s[j].id
  }

  /** Places `c` before the first category with a larger id. */
  function InsertById(c: Category, s: seq<Category>): (r: seq<Category>)
    ensures multiset(r) == multiset(s) + multiset{c}
  {
    if s == [] then [c]
    else if c.id <= s[0].id then [c] + s
    else
      assert s == [s[0]] + s[1..];
      [s[0]] + InsertById(c, s[1..])
  }

  /** Inserting into a sorted list keeps it sorted. */
  lemma {:induction false} InsertSorted(c: Category, s: seq<Category>)
    requires SortedById(s)
    ensures SortedById(InsertById(c, s))
  {
    if s != [] && c.id > s[0].id {
      var rest := InsertById(c, s[1..]);
      InsertSorted(c, s[1..]);
      forall k | 0 <= k < |rest|
        ensures s[0].id <= rest[k].id
      {
        assert rest[k] in multiset(rest);
        assert rest[k] in multiset(s[1..]) || rest[k] == c;
        if rest[k] != c {
          var j :| 0 <= j < |s[1..]| && s[1..][j] == rest[k];
          assert s[j + 1] == rest[k];
        }
      }
    }
  }

  /** Insertion sort by id. */
  function SortById(s: seq<Category>): (r: seq<Category>)
    ensures multiset(r) == multiset(s) && SortedById(r)
  {
    if s == [] then []
    else
      assert s == [s[0]] + s[1..];
      var rest := SortById(s[1..]);
      InsertSorted(s[0], rest);
      InsertById(s[0], rest)
  }

  /** The class-level registry `EventCategory._event_categories` / `_category_tags`. */
  class Registry {
    var categories: map<int, Category>
    var tags: map<string, int>
    /** The ids in the order the dictionary holds them: first registration first. */
    var order: seq<int>

    /** Every category is registered under its own id; `order` lists each id once. */
    ghost predicate Valid()
      reads this
    {
      (forall id :: id in categories ==> categories[id].id == id) &&
      (forall i :: 0 <= i < |order| ==> order[i] in categories) &&
      (forall id :: id in categories ==> id in order) &&
      (forall i, j :: 0 <= i < j < |order| ==> order[i] != order[j])
    }

    /** The empty dictionaries of the class body. */
    constructor ()
      ensures Valid() && categories == map[] && tags == map[] && order == []
    {
      categories := map[];
      tags := map[];
      order := [];
    }

    /** `make`: registers the category under its id and points the tag at that id. */
    method Make(id: int, tag: string, name: string)
      requires Valid()
      modifies this
      ensures Valid()
      ensures categories == old(categories)[id := Category(id, tag, name)]
      ensures tags == old(tags)[tag := id]
      ensures order == if id in old(categories) then old(order) else old(order) + [id]
      ensures ById(id) == Category(id, tag, name) && ByTag(tag) == Category(id, tag, name)
    {
      if id !in categories {
        order := order + [id];
      }
      categories := categories[id := Category(id, tag, name)];
      tags := tags[tag := id];
    }

    /** `by_id`: the registered category, or the unknown one. */
    function ById(id: int): (c: Category)
      reads this
      ensures id in categories ==> c == categories[id]
      ensures id !in categories ==> c == Unknown()
      ensures Valid() ==> c.id == id || c == Unknown()
    {
      if id in categories then categories[id] else Unknown()
    }

    /** `by_tag`: the category of the tag's id, or the unknown one when either lookup misses. */
    function ByTag(tag: string): (c: Category)
      reads this
      ensures tag in tags && tags[tag] in categories ==> c == categories[tags[tag]]
      ensures tag !in tags || tags[tag] !in categories ==> c == Unknown()
    {
      if tag in tags && tags[tag] in categories then categories[tags[tag]] else Unknown()
    }

    /**
     * `all_categories`: the dictionary's values sorted by id; every registered
     * category appears exactly once.
     */
    function AllCategories(): (r: seq<Category>)
      reads this
      requires Valid()
      ensures multiset(r) == multiset(ValuesInOrder(categories, order))
      ensures |r| == |categories|
      ensures forall id :: id in categories ==> categories[id] in r
      ensures forall c :: c in r ==> c in categories.Values
      ensures SortedById(r)
    {
      ValuesInOrderSpec(categories, order);
      var values := ValuesInOrder(categories, order);
      var r := SortById(values);
      assert forall c :: c in r <==> c in values by {
        forall c ensures c in r <==> c in values {
          assert c in r <==> c in multiset(r);
        }
      }
      r
    }
  }

  /** The categories of the given ids, in the order of the ids. */
  function ValuesInOrder(cats: map<int, Category>, ids: seq<int>): (r: seq<Category>)
    requires forall i :: 0 <= i < |ids| ==> ids[i] in cats
    ensures |r| == |ids| && forall i :: 0 <= i < |ids| ==> r[i] == cats[ids[i]]
  {
    if ids == [] then [] else [cats[ids[0]]] + ValuesInOrder(cats, ids[1..])
  }

  /** Listing every key once lists every category, and as many as there are keys. */
  lemma ValuesInOrderSpec(cats: map<int, Category>, ids: seq<int>)
    requires forall i :: 0 <= i < |ids| ==> ids[i] in cats
    requires forall x :: x in cats ==> x in ids
    requires forall i, j :: 0 <= i < j < |ids| ==> ids[i] != ids[j]
    ensures var r := ValuesInOrder(cats, ids);
            |r| == |cats| &&
            (forall id :: id in cats ==> cats[id] in r) &&
            (forall c :: c in r ==> c in cats.Values)
  {
    var r := ValuesInOrder(cats, ids);
    forall id | id in cats
      ensures cats[id] in r
    {
      var i :| 0 <= i < |ids| && ids[i] == id;
      assert r[i] == cats[id];
    }
    DistinctCount(ids, cats.Keys);
  }

  /** A sequence listing each element of a set exactly once is as long as the set is large. */
  lemma {:induction false} DistinctCount(ids: seq<int>, keys: set<int>)
    requires forall i :: 0 <= i < |ids| ==> ids[i] in keys
    requires forall x :: x in keys ==> x in ids
    requires forall i, j :: 0 <= i < j < |ids| ==> ids[i] != ids[j]
    ensures |ids| == |keys|
  {
    if ids != [] {
      var rest := ids[1..];
      forall x | x in keys - {ids[0]}
        ensures x in rest
      {
        var k :| 0 <= k < |ids| && ids[k] == x;
        assert rest[k - 1] == x;
      }
      DistinctCount(rest, keys - {ids[0]});
    } else {
      assert forall x :: x !in keys;
      assert keys == {};
    }
  }

  /** A tag lookup is an id lookup through the tag dictionary. */
  lemma ByTagIsById(reg: Registry, tag: string)
    ensures tag in reg.tags ==> reg.ByTag(tag) == reg.ById(reg.tags[tag])
    ensures tag !in reg.tags ==> reg.ByTag(tag) == Unknown()
  {
  }

  // ---------------------------------------------------------------- instances

  /** `_event_duration`: six hours. */
  const EventDuration: int := 6 * 3600

  /** One occurrence of a (recurring) event, starting at `dateInstance`. */
  datatype EventInstance<E> = EventInstance(dateInstance: DateTime, event: E, editable: bool, allDay: bool) {

    /** `start`: the occurrence's own start. */
    function Start(): (t: DateTime)
      ensures t == dateInstance
    {
      dateInstance
    }

    /** `end`: exactly six hours after the start. */
    function End(): (t: DateTime)
      requires ValidDateTime(dateInstance)
      ensures ValidDateTime(t) && Seconds(t) - Seconds(Start()) == EventDuration
    {
      AddSeconds(dateInstance, EventDuration)
    }
  }

  /** `EventInstance(date_instance, db_instance)`: never editable, never all-day. */
  function NewInstance<E>(date: DateTime, event: E): (i: EventInstance<E>)
    ensures i.Start() == date && i.event == event && !i.editable && !i.allDay
  {
    EventInstance(date, event, false, false)
  }
}
