/**
 * What `ORDER BY a, b, id` means for a set of rows: the unique duplicate-free
 * listing of the set in which every row precedes the later ones.
 */
module RowOrder {

  // The two sort columns of each row; the row's id breaks the remaining ties.
  type Keys = map<nat, (int, int)>

  predicate Before(keys: Keys, a: nat, b: nat)
    requires a in keys && b in keys
  {
    || keys[a].0 < keys[b].0
    || (keys[a].0 == keys[b].0 && keys[a].1 < keys[b].1)
    || (keys[a].0 == keys[b].0 && keys[a].1 == keys[b].1 && a < b)
  }

  ghost predicate Sorted(keys: Keys, ids: seq<nat>)
    requires forall id | id in ids :: id in keys
  {
    forall i, j | 0 <= i < j < |ids| :: Before(keys, ids[i], ids[j])
  }

  // `ids` lists exactly the rows of `rows`, in order.
  ghost predicate Lists(keys: Keys, rows: set<nat>, ids: seq<nat>)
  {
    && (forall id :: id in ids <==> id in rows)
    && rows <= keys.Keys
    && Sorted(keys, ids)
  }

  ghost predicate IsFirst(keys: Keys, rows: set<nat>, id: nat)
    requires rows <= keys.Keys
  {
    id in rows && forall other | other in rows :: other == id || Before(keys, id, other)
  }

  lemma {:induction false} FirstExists(keys: Keys, rows: set<nat>)
    requires rows <= keys.Keys && rows != {}
    ensures exists id :: IsFirst(keys, rows, id)
  {
    var some :| some in rows;
    var rest := rows - {some};
    assert rows == rest + {some};
    if rest == {} {
      assert IsFirst(keys, rows, some);
    } else {
      FirstExists(keys, rest);
      var best :| IsFirst(keys, rest, best);
      assert IsFirst(keys, rows, if Before(keys, some, best) then some else best);
    }
  }

  // The row `ORDER BY ... LIMIT 1` returns.
  function First(keys: Keys, rows: set<nat>): (id: nat)
    requires rows <= keys.Keys && rows != {}
    ensures IsFirst(keys, rows, id)
  {
    FirstExists(keys, rows);
    var id :| id in rows && forall other | other in rows :: other == id || Before(keys, id, other);
    id
  }

  function OrderBy(keys: Keys, rows: set<nat>): (ids: seq<nat>)
    requires rows <= keys.Keys
    ensures Lists(keys, rows, ids)
  {
    if rows == {} then
      []
    else
      var first := First(keys, rows);
      [first] + OrderBy(keys, rows - {first})
  }

  lemma {:induction false} ListingSize(keys: Keys, rows: set<nat>)
    requires rows <= keys.Keys
    ensures |OrderBy(keys, rows)| == |rows|
  {
    if rows != {} {
      ListingSize(keys, rows - {First(keys, rows)});
    }
  }

  lemma HeadIsFirst(keys: Keys, rows: set<nat>, ids: seq<nat>)
    requires Lists(keys, rows, ids) && ids != []
    ensures IsFirst(keys, rows, ids[0])
  {
    forall other | other in rows
      ensures other == ids[0] || Before(keys, ids[0], other)
    {
      var i :| 0 <= i < |ids| && ids[i] == other;
    }
  }

  lemma {:induction false} ListingIsUnique(keys: Keys, rows: set<nat>, left: seq<nat>, right: seq<nat>)
    requires Lists(keys, rows, left) && Lists(keys, rows, right)
    ensures left == right
    decreases |left|
  {
    EmptyOrInhabited(right);
    if left != [] {
      var head := left[0];
      assert head in right;
      assert right != [];
      assert right[0] in left;
      assert right[0] == head;
      TailLists(keys, rows, left);
      TailLists(keys, rows, right);
      ListingIsUnique(keys, rows - {head}, left[1..], right[1..]);
      assert left == [head] + left[1..] && right == [head] + right[1..];
    }
  }

  lemma EmptyOrInhabited(ids: seq<nat>)
    ensures ids == [] || exists id :: id in ids
  {
    if ids != [] {
      assert ids[0] in ids;
    }
  }

  lemma TailLists(keys: Keys, rows: set<nat>, ids: seq<nat>)
    requires Lists(keys, rows, ids) && ids != []
    ensures Lists(keys, rows - {ids[0]}, ids[1..])
  {
    var tail := ids[1..];
    forall id
      ensures id in tail <==> id in rows - {ids[0]}
    {
      if id in tail {
        var i :| 0 <= i < |tail| && tail[i] == id;
        assert ids[i + 1] == id && Before(keys, ids[0], ids[i + 1]);
      }
      if id in rows - {ids[0]} {
        var i :| 0 <= i < |ids| && ids[i] == id;
        assert tail[i - 1] == id;
      }
    }
    assert forall i | 0 <= i < |tail| :: tail[i] == ids[i + 1];
  }
}
