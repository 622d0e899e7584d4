/**
 The submitted form as the handler sees it. The request body is a sequence
 of (field name, value) pairs in which a name may repeat; Flask's
 `request.form` keeps every key once, in the order of its first appearance,
 and `request.form[key]` and `request.form.get(key)` give its first value.
 */
module Form {
  import opened Wrappers

  type Field = (string, string)

  /** `request.form.get(key)`: the first value submitted under `key`, `None` when there is none. */
  function Get(fields: seq<Field>, key: string): (v: Option<string>)
    ensures v.Some? <==> exists i :: 0 <= i < |fields| && fields[i].0 == key
    ensures v.Some? ==> exists i :: 0 <= i < |fields| && fields[i] == (key, v.value)
    decreases |fields|
  {
    if |fields| == 0 then None
    else if fields[0].0 == key then Some(fields[0].1)
    else Get(fields[1..], key)
  }

  /** No field before position `i` is named `key`. */
  predicate AbsentBefore(fields: seq<Field>, key: string, i: int) {
    forall j :: 0 <= j < i && j < |fields| ==> fields[j].0 != key
  }

  /** `Get` gives the value of the first field named `key`: no earlier field has that name. */
  lemma {:induction false} GetFirst(fields: seq<Field>, key: string)
    ensures Get(fields, key).Some? ==>
      exists i :: 0 <= i < |fields| && fields[i] == (key, Get(fields, key).value) && AbsentBefore(fields, key, i)
    decreases |fields|
  {
    if |fields| > 0 && fields[0].0 != key {
      GetFirst(fields[1..], key);
      var v := Get(fields, key);
      if v.Some? {
        var i :| 0 <= i < |fields[1..]| && fields[1..][i] == (key, v.value) && AbsentBefore(fields[1..], key, i);
        assert fields[i + 1] == (key, v.value);
        assert AbsentBefore(fields, key, i + 1) by {
          forall j | 0 <= j < i + 1 ensures fields[j].0 != key {
            if j > 0 {
              assert fields[j] == fields[1..][j - 1];
            }
          }
        }
      }
    } else if |fields| > 0 {
      assert AbsentBefore(fields, key, 0);
    }
  }

  predicate DistinctKeys(view: seq<Field>) {
    forall i, j :: 0 <= i < j < |view| ==> view[i].0 != view[j].0
  }

  /** The first-occurrence pairs of `fields` whose key is not in `seen`. */
  function ViewFrom(fields: seq<Field>, seen: set<string>): (view: seq<Field>)
    ensures DistinctKeys(view)
    ensures forall i :: 0 <= i < |view| ==> view[i].0 !in seen
    ensures forall i :: 0 <= i < |view| ==> Get(fields, view[i].0) == Some(view[i].1)
    ensures forall k :: k !in seen && Get(fields, k).Some? ==> exists i :: 0 <= i < |view| && view[i].0 == k
    decreases |fields|
  {
    if |fields| == 0 then []
    else if fields[0].0 in seen then ViewFrom(fields[1..], seen)
    else
      var rest := ViewFrom(fields[1..], seen + {fields[0].0});
      var view := [fields[0]] + rest;
      assert forall k :: k !in seen && Get(fields, k).Some? ==> exists i :: 0 <= i < |view| && view[i].0 == k by {
        forall k | k !in seen && Get(fields, k).Some?
          ensures exists i :: 0 <= i < |view| && view[i].0 == k
        {
          if k == fields[0].0 {
            assert view[0].0 == k;
          } else {
            var j :| 0 <= j < |rest| && rest[j].0 == k;
            assert view[j + 1].0 == k;
          }
        }
      }
      view
  }

  /**
   The keys of `view` come in the order of their first appearance in
   `fields`: for keys at positions `i < j` of the view, every field named like
   the later one is preceded by a field named like the earlier one.
   */
  predicate FirstOccurrenceOrder(fields: seq<Field>, view: seq<Field>) {
    forall i, j, q {:trigger view[i], view[j], fields[q]} :: 0 <= i < j < |view| && 0 <= q < |fields| && fields[q].0 == view[j].0 ==>
      exists p :: 0 <= p < q && fields[p].0 == view[i].0
  }

  // The two lemmas below need no proof text of their own; they exist so that
  // `ViewFromOrdered` can state each case's facts for the one view it builds.

  /** A field whose name is already seen adds nothing to the view, and it keeps its order. */
  lemma OrderedSkip(fields: seq<Field>, view: seq<Field>, seen: set<string>)
    requires |fields| > 0 && fields[0].0 in seen
    requires forall i :: 0 <= i < |view| ==> view[i].0 !in seen
    requires FirstOccurrenceOrder(fields[1..], view)
    ensures FirstOccurrenceOrder(fields, view)
  {
  }

  /** A field with a new name goes first in the view, ahead of every later name. */
  lemma OrderedKeep(fields: seq<Field>, rest: seq<Field>)
    requires |fields| > 0
    requires forall i :: 0 <= i < |rest| ==> rest[i].0 != fields[0].0
    requires FirstOccurrenceOrder(fields[1..], rest)
    ensures FirstOccurrenceOrder(fields, [fields[0]] + rest)
  {
  }

  lemma {:induction false} ViewFromOrdered(fields: seq<Field>, seen: set<string>)
    ensures FirstOccurrenceOrder(fields, ViewFrom(fields, seen))
    decreases |fields|
  {
    if |fields| > 0 {
      if fields[0].0 in seen {
        ViewFromOrdered(fields[1..], seen);
        OrderedSkip(fields, ViewFrom(fields[1..], seen), seen);
      } else {
        ViewFromOrdered(fields[1..], seen + {fields[0].0});
        OrderedKeep(fields, ViewFrom(fields[1..], seen + {fields[0].0}));
      }
    }
  }

  /**
   `request.form` as the loop `for key in request.form` walks it: each key
   once, in first-occurrence order, paired with `request.form[key]`.
   */
  function View(fields: seq<Field>): (view: seq<Field>)
    ensures DistinctKeys(view)
    ensures forall i :: 0 <= i < |view| ==> Get(fields, view[i].0) == Some(view[i].1)
    ensures forall k :: Get(fields, k).Some? ==> exists i :: 0 <= i < |view| && view[i].0 == k
    ensures FirstOccurrenceOrder(fields, view)
  {
    ViewFromOrdered(fields, {});
    ViewFrom(fields, {})
  }
}
