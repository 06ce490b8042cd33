/**
 The question/answer panel: it groups the extracted pairs by screening
 category (an empty category falls into "Non Categorizzato") and shows a
 loading skeleton, one accordion section per category, or an empty message.

 `Grouping` is the reference definition of the grouped record; the method
 `GroupByCategory` is the left-to-right reduce that builds it in place.
 `GroupAsWritten` models the same reduce on a JavaScript object literal, where
 names inherited from Object.prototype are already "present".
 */
module QaPanel {
  import opened Flows

  const Uncategorized: string := "Non Categorizzato"

  /** `qa.category || "Non Categorizzato"`: the empty string is the only falsy string. */
  function CategoryKey(qa: QaPair): (key: string)
    ensures key != ""
    ensures qa.category != "" ==> key == qa.category
  {
    if qa.category == "" then Uncategorized else qa.category
  }

  function Last<T>(s: seq<T>): T
    requires s != []
  {
    s[|s| - 1]
  }

  function Init<T>(s: seq<T>): seq<T>
    requires s != []
  {
    s[..|s| - 1]
  }

  /** The pairs filed under `category`, in the order the reduce pushes them. */
  function Members(pairs: seq<QaPair>, category: string): seq<QaPair> {
    if pairs == [] then []
    else Members(Init(pairs), category) + (if CategoryKey(Last(pairs)) == category then [Last(pairs)] else [])
  }

  /** The keys of the grouped record in creation order: each distinct key once,
      where it first occurs. */
  function Categories(pairs: seq<QaPair>): seq<string> {
    if pairs == [] then []
    else
      var earlier := Categories(Init(pairs));
      var category := CategoryKey(Last(pairs));
      if category in earlier then earlier else earlier + [category]
  }

  /** The grouped record: `order` is `Object.keys`, `members` maps each key to its list. */
  datatype Groups = Groups(order: seq<string>, members: map<string, seq<QaPair>>)

  /** Reference definition of `groupedQAs`. */
  function Grouping(pairs: seq<QaPair>): Groups {
    var order := Categories(pairs);
    Groups(order, map category | category in order :: Members(pairs, category))
  }

  predicate Distinct<T(==)>(s: seq<T>) {
    forall i, j :: 0 <= i < j < |s| ==> s[i] != s[j]
  }

  /** `a` occurs in `b` in the same relative order (matched from the right). */
  predicate InOrderWithin<T(==)>(a: seq<T>, b: seq<T>)
    decreases |b|
  {
    if a == [] then true
    else if b == [] then false
    else if Last(a) == Last(b) then InOrderWithin(Init(a), Init(b))
    else InOrderWithin(a, Init(b))
  }

  /** Total number of pairs over all sections, in key order. */
  function TotalCount(g: Groups): nat
    requires forall category :: category in g.order ==> category in g.members
    decreases |g.order|
  {
    if g.order == [] then 0
    else TotalCount(g.(order := Init(g.order))) + |g.members[Last(g.order)]|
  }

  // ---------------------------------------------------------------------------
  // Properties of the grouping

  /** A pair lands in the section of its own key and in no other. */
  lemma {:induction false} MembersIff(pairs: seq<QaPair>, category: string, qa: QaPair)
    ensures qa in Members(pairs, category) <==> qa in pairs && CategoryKey(qa) == category
  {
    if pairs != [] {
      MembersIff(Init(pairs), category, qa);
      assert pairs == Init(pairs) + [Last(pairs)];
    }
  }

  /** The default section: it holds exactly the pairs with an empty category
      and, sharing the same key, those whose category is literally
      "Non Categorizzato". */
  lemma UncategorizedSection(pairs: seq<QaPair>, qa: QaPair)
    ensures qa in Members(pairs, Uncategorized)
            <==> qa in pairs && (qa.category == "" || qa.category == Uncategorized)
  {
    MembersIff(pairs, Uncategorized, qa);
  }

  /** Counting duplicates too: each occurrence of a pair is filed exactly once,
      under its own key. */
  lemma {:induction false} MembersMultiplicity(pairs: seq<QaPair>, category: string, qa: QaPair)
    ensures multiset(Members(pairs, category))[qa]
         == if CategoryKey(qa) == category then multiset(pairs)[qa] else 0
  {
    if pairs != [] {
      MembersMultiplicity(Init(pairs), category, qa);
      assert pairs == Init(pairs) + [Last(pairs)];
    }
  }

  /** Within a section, pairs keep their relative order from the input. */
  lemma {:induction false} MembersInOrder(pairs: seq<QaPair>, category: string)
    ensures InOrderWithin(Members(pairs, category), pairs)
  {
    if pairs != [] {
      var m := Members(Init(pairs), category);
      MembersInOrder(Init(pairs), category);
      if CategoryKey(Last(pairs)) == category {
        assert Init(m + [Last(pairs)]) == m;
      } else {
        assert Members(pairs, category) == m;
        if m != [] {
          assert Last(m) in m;
          MembersIff(Init(pairs), category, Last(m));
          assert Last(m) != Last(pairs);
        }
      }
    }
  }

  /** The keys are distinct and are exactly the keys of the pairs present. */
  lemma {:induction false} CategoriesAreKeys(pairs: seq<QaPair>)
    ensures Distinct(Categories(pairs))
    ensures forall category :: category in Categories(pairs) <==> exists qa :: qa in pairs && CategoryKey(qa) == category
  {
    if pairs != [] {
      CategoriesAreKeys(Init(pairs));
      assert pairs == Init(pairs) + [Last(pairs)];
      forall category | category in Categories(pairs)
        ensures exists qa :: qa in pairs && CategoryKey(qa) == category
      {
        if category in Categories(Init(pairs)) {
          var qa :| qa in Init(pairs) && CategoryKey(qa) == category;
          assert qa in pairs;
        } else {
          assert CategoryKey(Last(pairs)) == category;
        }
      }
    }
  }

  /** A key has members exactly when it is one of the record's keys: no section is empty. */
  lemma NonEmptySections(pairs: seq<QaPair>, category: string)
    ensures category in Categories(pairs) <==> Members(pairs, category) != []
  {
    CategoriesAreKeys(pairs);
    if category in Categories(pairs) {
      var qa :| qa in pairs && CategoryKey(qa) == category;
      MembersIff(pairs, category, qa);
    } else if Members(pairs, category) != [] {
      var qa := Members(pairs, category)[0];
      MembersIff(pairs, category, qa);
    }
  }

  /** There is some section exactly when there is some pair. */
  lemma CategoriesEmptyIff(pairs: seq<QaPair>)
    ensures Categories(pairs) == [] <==> pairs == []
  {
    CategoriesAreKeys(pairs);
    if pairs != [] {
      assert CategoryKey(pairs[0]) in Categories(pairs);
    }
  }

  /** Adding one pair to the input adds it at the end of its own section, and
      opens that section at the end of the key order if it is new. */
  lemma GroupingSnoc(pairs: seq<QaPair>, qa: QaPair)
    ensures var g := Grouping(pairs);
            var category := CategoryKey(qa);
            Grouping(pairs + [qa])
            == if category in g.members
               then g.(members := g.members[category := g.members[category] + [qa]])
               else Groups(g.order + [category], g.members[category := [qa]])
  {
    var ps := pairs + [qa];
    assert Init(ps) == pairs && Last(ps) == qa;
    var g := Grouping(pairs);
    var g' := Grouping(ps);
    var category := CategoryKey(qa);
    assert category in g.members <==> category in Categories(pairs);
    forall c ensures Members(ps, c) == Members(pairs, c) + (if c == category then [qa] else []) { }
    if category in g.members {
      assert g'.order == g.order;
      var m := g.members[category := g.members[category] + [qa]];
      assert g'.members == m by {
        assert g'.members.Keys == m.Keys;
        forall c | c in m ensures g'.members[c] == m[c] { }
      }
    } else {
      assert g'.order == g.order + [category];
      NonEmptySections(pairs, category);
      var m := g.members[category := [qa]];
      assert g'.members == m by {
        assert g'.members.Keys == m.Keys;
        forall c | c in m ensures g'.members[c] == m[c] { }
      }
    }
  }

  /** The sections hold as many pairs, in all, as the input. */
  lemma {:induction false} GroupSizesAddUp(pairs: seq<QaPair>)
    ensures TotalCount(Grouping(pairs)) == |pairs|
  {
    if pairs != [] {
      var g := Grouping(Init(pairs));
      var qa := Last(pairs);
      var category := CategoryKey(qa);
      GroupSizesAddUp(Init(pairs));
      assert Init(pairs) + [qa] == pairs;
      GroupingSnoc(Init(pairs), qa);
      CategoriesAreKeys(Init(pairs));
      if category in g.members {
        assert Grouping(pairs) == g.(members := g.members[category := g.members[category] + [qa]]);
        TotalCountBump(g, category, qa);
      } else {
        var h := Groups(g.order + [category], g.members[category := [qa]]);
        assert Grouping(pairs) == h;
        assert h.(order := Init(h.order)).order == g.order;
        TotalCountIgnoresOtherKeys(g.order, g.members, category, [qa]);
      }
    }
  }

  /** Growing one listed section by one pair grows the total by one. */
  lemma {:induction false} TotalCountBump(g: Groups, category: string, qa: QaPair)
    requires forall c :: c in g.order ==> c in g.members
    requires Distinct(g.order) && category in g.order
    decreases |g.order|
    ensures TotalCount(g.(members := g.members[category := g.members[category] + [qa]])) == TotalCount(g) + 1
  {
    var h := g.(members := g.members[category := g.members[category] + [qa]]);
    if Last(g.order) == category {
      assert category !in Init(g.order) by {
        forall i | 0 <= i < |Init(g.order)| ensures Init(g.order)[i] != category {
          assert Init(g.order)[i] == g.order[i];
        }
      }
      TotalCountIgnoresOtherKeys(Init(g.order), g.members, category, g.members[category] + [qa]);
    } else {
      assert category in Init(g.order) by {
        var i :| 0 <= i < |g.order| && g.order[i] == category;
        assert Init(g.order)[i] == category;
      }
      TotalCountBump(g.(order := Init(g.order)), category, qa);
    }
  }

  /** The total over `order` does not depend on a key outside `order`. */
  lemma {:induction false} TotalCountIgnoresOtherKeys(order: seq<string>, members: map<string, seq<QaPair>>, category: string, items: seq<QaPair>)
    requires forall c :: c in order ==> c in members
    requires category !in order
    ensures TotalCount(Groups(order, members[category := items])) == TotalCount(Groups(order, members))
  {
    if order != [] {
      TotalCountIgnoresOtherKeys(Init(order), members, category, items);
    }
  }

  // ---------------------------------------------------------------------------
  // The reduce of QaPanel, building the record in place

  /** The two statements of one reduce step (open the key if absent, then push)
      take the grouping of `pairs` to the grouping of `pairs + [qa]`. */
  lemma PushStep(pairs: seq<QaPair>, qa: QaPair, acc: Groups)
    requires var g := Grouping(pairs);
             var category := CategoryKey(qa);
             acc == if category in g.members then g else Groups(g.order + [category], g.members[category := []])
    ensures var category := CategoryKey(qa);
            category in acc.members
            && acc.(members := acc.members[category := acc.members[category] + [qa]]) == Grouping(pairs + [qa])
  {
    var g := Grouping(pairs);
    var category := CategoryKey(qa);
    GroupingSnoc(pairs, qa);
    if category !in g.members {
      assert acc.members[category := [] + [qa]] == g.members[category := [qa]];
    }
  }

  /** `qaPairs.reduce(...)`: for each pair, create its key's list if absent,
      then push the pair onto it. */
  method GroupByCategory(qaPairs: seq<QaPair>) returns (acc: Groups)
    ensures acc == Grouping(qaPairs)
  {
    acc := Groups([], map[]);
    var i := 0;
    while i < |qaPairs|
      invariant 0 <= i <= |qaPairs|
      invariant acc == Grouping(qaPairs[..i])
    {
      var qa := qaPairs[i];
      var category := CategoryKey(qa);
      if category !in acc.members {
        acc := Groups(acc.order + [category], acc.members[category := []]);
      }
      PushStep(qaPairs[..i], qa, acc);
      acc := acc.(members := acc.members[category := acc.members[category] + [qa]]);
      assert qaPairs[..i + 1] == qaPairs[..i] + [qa];
      i := i + 1;
    }
    assert qaPairs[..i] == qaPairs;
  }

  // ---------------------------------------------------------------------------
  // View selection

  datatype Section = Section(category: string, items: seq<QaPair>)

  /** What the card body shows. */
  datatype View = Skeleton | Accordion(sections: seq<Section>) | EmptyMessage

  /** `Object.entries(groupedQAs)`. */
  function Entries(g: Groups): (sections: seq<Section>)
    requires forall category :: category in g.order ==> category in g.members
    ensures |sections| == |g.order|
    ensures forall i :: 0 <= i < |sections| ==>
              sections[i].category == g.order[i] && sections[i].items == g.members[g.order[i]]
  {
    seq(|g.order|, i requires 0 <= i < |g.order| => Section(g.order[i], g.members[g.order[i]]))
  }

  /** The card body of QaPanel: the skeleton while loading with nothing to show,
      else the accordion when the grouped record has a key, else the empty message.
      Because every pair yields a key, the accordion shows exactly when there are pairs. */
  function SelectView(qaPairs: seq<QaPair>, isLoading: bool): (v: View)
    ensures v == Skeleton <==> isLoading && |qaPairs| == 0
    ensures v.Accordion? <==> |qaPairs| > 0
    ensures v == EmptyMessage <==> !isLoading && |qaPairs| == 0
    ensures v.Accordion? ==> |v.sections| == |Categories(qaPairs)|
    ensures v.Accordion? ==> forall i :: 0 <= i < |v.sections| ==>
              v.sections[i].category == Categories(qaPairs)[i] && v.sections[i].items == Members(qaPairs, Categories(qaPairs)[i])
  {
    var groupedQAs := Grouping(qaPairs);
    CategoriesEmptyIff(qaPairs);
    if isLoading && |qaPairs| == 0 then Skeleton
    else if |groupedQAs.order| > 0 then Accordion(Entries(groupedQAs))
    else EmptyMessage
  }

  // ---------------------------------------------------------------------------
  // The reduce as written, over a plain JavaScript object

  /** Property names every `{}` inherits from Object.prototype. Looking one of
      them up yields a function or an object: truthy, and without `push`. */
  const ObjectPrototypeNames: set<string> := {
    "constructor", "__proto__", "hasOwnProperty", "isPrototypeOf",
    "propertyIsEnumerable", "toString", "toLocaleString", "valueOf",
    "__defineGetter__", "__defineSetter__", "__lookupGetter__", "__lookupSetter__"
  }

  /** The reduce either finishes with a record or throws a TypeError
      (`acc[category].push is not a function`) during rendering. */
  datatype Reduced = Reduced(groups: Groups) | TypeError(category: string)

  /** The reduce as written: `!acc[category]` is false for an inherited name,
      so no list is created and the following `push` throws. */
  function GroupAsWritten(qaPairs: seq<QaPair>): (res: Reduced)
    ensures res.TypeError? ==> res.category in ObjectPrototypeNames
    ensures res.TypeError? ==> exists i :: 0 <= i < |qaPairs| && CategoryKey(qaPairs[i]) == res.category
    ensures res.Reduced? ==> |res.groups.order| <= |qaPairs|
  {
    if qaPairs == [] then Reduced(Groups([], map[]))
    else match GroupAsWritten(Init(qaPairs))
      case TypeError(c) => TypeError(c)
      case Reduced(acc) =>
        var qa := Last(qaPairs);
        var category := CategoryKey(qa);
        if category in acc.members then Reduced(acc.(members := acc.members[category := acc.members[category] + [qa]]))
        else if category in ObjectPrototypeNames then TypeError(category)
        else Reduced(Groups(acc.order + [category], acc.members[category := [qa]]))
  }

  /** With no category named like an Object.prototype member, the reduce as
      written builds exactly the reference grouping. */
  lemma {:induction false} AsWrittenAgrees(qaPairs: seq<QaPair>)
    requires forall qa :: qa in qaPairs ==> CategoryKey(qa) !in ObjectPrototypeNames
    ensures GroupAsWritten(qaPairs) == Reduced(Grouping(qaPairs))
  {
    if qaPairs != [] {
      var init, qa := Init(qaPairs), Last(qaPairs);
      assert qa in qaPairs;
      assert forall p :: p in init ==> p in qaPairs;
      AsWrittenAgrees(init);
      var g := Grouping(init);
      var category := CategoryKey(qa);
      assert GroupAsWritten(init) == Reduced(g);
      assert init + [qa] == qaPairs;
      GroupingSnoc(init, qa);
      if category in g.members {
        assert GroupAsWritten(qaPairs) == Reduced(g.(members := g.members[category := g.members[category] + [qa]]));
      } else {
        assert category !in ObjectPrototypeNames;
        assert GroupAsWritten(qaPairs) == Reduced(Groups(g.order + [category], g.members[category := [qa]]));
      }
    }
  }

  /** A record the reduce as written finishes never has an inherited name as a key. */
  lemma {:induction false} AsWrittenOwnKeys(qaPairs: seq<QaPair>)
    ensures GroupAsWritten(qaPairs).Reduced? ==>
              forall category :: category in GroupAsWritten(qaPairs).groups.members ==> category !in ObjectPrototypeNames
  {
    if qaPairs != [] {
      AsWrittenOwnKeys(Init(qaPairs));
    }
  }

  /** One pair whose category is named like an Object.prototype member makes
      the whole panel throw, wherever it occurs. */
  lemma {:induction false} AsWrittenThrowsOnInheritedName(qaPairs: seq<QaPair>, i: nat)
    requires i < |qaPairs| && CategoryKey(qaPairs[i]) in ObjectPrototypeNames
    ensures GroupAsWritten(qaPairs).TypeError?
  {
    if i < |qaPairs| - 1 {
      AsWrittenThrowsOnInheritedName(Init(qaPairs), i);
    } else {
      AsWrittenOwnKeys(Init(qaPairs));
    }
  }

  /** The concrete input: a single pair filed under "constructor". */
  lemma ConstructorCategoryThrows()
    ensures GroupAsWritten([QaPair("Allergie?", "Nessuna", "constructor")]) == TypeError("constructor")
  {
    var qaPairs := [QaPair("Allergie?", "Nessuna", "constructor")];
    assert Init(qaPairs) == [];
  }
}
