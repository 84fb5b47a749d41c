/** `StringSet` (cfsync/stringset.go): a set of names kept as the keys of a Go map and
    changed in place. */
module StringSets {
  import Text

  /** The distinct names of a list. */
  function Elements(names: seq<string>): set<string>
  {
    set x | x in names
  }

  predicate Distinct(names: seq<string>)
  {
    forall i, j :: 0 <= i < j < |names| ==> names[i] != names[j]
  }

  /** Duplicates collapse: a list has at most as many distinct names as entries, and as many
      exactly when no name repeats. */
  lemma {:induction false} DuplicatesCollapse(names: seq<string>)
    ensures |Elements(names)| <= |names|
    ensures |Elements(names)| == |names| <==> Distinct(names)
  {
    if |names| > 0 {
      var last := names[|names| - 1];
      var front := names[..|names| - 1];
      DuplicatesCollapse(front);
      assert Elements(names) == Elements(front) + {last} by {
        assert names == front + [last];
      }
      if last in front {
        assert Elements(names) == Elements(front);
        var i :| 0 <= i < |front| && front[i] == last;
        assert names[i] == names[|names| - 1];
      } else {
        assert |Elements(names)| == |Elements(front)| + 1;
        if Distinct(front) {
          forall i, j | 0 <= i < j < |names| ensures names[i] != names[j] {
            if j == |names| - 1 {
              assert names[i] == front[i];
            } else {
              assert names[i] == front[i] && names[j] == front[j];
            }
          }
        } else {
          var i, j :| 0 <= i < j < |front| && front[i] == front[j];
          assert names[i] == names[j];
        }
      }
    }
  }

  /** What `String` shows for the names in the order visited: "[", the names separated by
      ",", then "]". */
  function Shown(order: seq<string>): string
  {
    "[" + Text.Join(order, ",") + "]"
  }

  /** The listing can be read back: between the brackets, splitting at "," gives the names
      in the order they were visited, as long as no name holds a "," and the set is not
      empty. */
  lemma ShownReadsBack(order: seq<string>)
    requires |order| >= 1
    requires forall i :: 0 <= i < |order| ==> ',' !in order[i]
    ensures var s := Shown(order);
            |s| >= 2 && Text.Split(s[1..|s| - 1], ',') == order
  {
    var s := Shown(order);
    assert s[1..|s| - 1] == Text.Join(order, [',']);
    Text.JoinSplit(order, ',');
  }

  class StringSet {
    var members: set<string>

    /** `NewStringSet(name...)`: a new set holding exactly the given names. */
    constructor (names: seq<string>)
      ensures members == Elements(names)
    {
      members := {};
      new;
      AddAll(names);
    }

    /** `Add`: `name` is a member afterwards, and nothing else is added. */
    method Add(name: string)
      modifies this
      ensures members == old(members) + {name}
    {
      members := members + {name};
    }

    /** `AddAll`: every listed name is added, in order, and nothing else. */
    method AddAll(names: seq<string>)
      modifies this
      ensures members == old(members) + Elements(names)
    {
      var i := 0;
      while i < |names|
        invariant i <= |names|
        invariant members == old(members) + Elements(names[..i])
      {
        assert Elements(names[..i + 1]) == Elements(names[..i]) + {names[i]} by {
          assert names[..i + 1] == names[..i] + [names[i]];
        }
        Add(names[i]);
        i := i + 1;
      }
      assert names[..i] == names;
    }

    predicate Contains(name: string)
      reads this
    {
      name in members
    }

    /** `Difference`: a new set of the members not in `other`; neither set changes. */
    method Difference(other: StringSet) returns (result: StringSet)
      ensures fresh(result)
      ensures result.members == members - other.members
    {
      result := new StringSet([]);
      var rest := members;
      while rest != {}
        invariant rest <= members
        invariant result.members == (members - rest) - other.members
        decreases rest
      {
        var k :| k in rest;
        if !other.Contains(k) {
          result.Add(k);
        }
        rest := rest - {k};
      }
    }

    /** `String`: the members, in the map's (unspecified) iteration order, between brackets
        and separated by commas. */
    method String() returns (s: string, ghost order: seq<string>)
      ensures Distinct(order) && Elements(order) == members && |order| == |members|
      ensures s == Shown(order)
    {
      var builder := "[";
      var first := true;
      order := [];
      var rest := members;
      while rest != {}
        invariant rest <= members
        invariant forall x :: x in order ==> x in members && x !in rest
        invariant forall x :: x in members && x !in rest ==> x in order
        invariant Distinct(order)
        invariant first <==> order == []
        invariant builder == "[" + Text.Join(order, ",")
        decreases rest
      {
        var k :| k in rest;
        if !first {
          builder := builder + ",";
        } else {
          first := false;
        }
        builder := builder + k;
        Text.JoinAppend(order, k, ",");
        order := order + [k];
        rest := rest - {k};
      }
      s := builder + "]";
      assert Elements(order) == members;
      DuplicatesCollapse(order);
    }
  }
}
