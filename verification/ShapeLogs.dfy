/** What a log of occurrences says: which shapes were first seen where, how often each occurs,
    and which was last at a path. */
module ShapeLogs {
  import opened Wrappers
  import opened ShapeWalks

  ghost predicate HasShape(log: seq<Occurrence>, shape: Shape) {
    exists i :: 0 <= i < |log| && log[i].shape == shape
  }

  /** The first occurrence of each shape, in the order they were met. */
  ghost function FirstSeen(log: seq<Occurrence>): seq<Occurrence> {
    if log == [] then []
    else
      var init, last := log[..|log| - 1], log[|log| - 1];
      if HasShape(init, last.shape) then FirstSeen(init) else FirstSeen(init) + [last]
  }

  ghost function Count(log: seq<Occurrence>, shape: Shape): nat {
    if log == [] then 0
    else Count(log[..|log| - 1], shape) + if log[|log| - 1].shape == shape then 1 else 0
  }

  /** The shape of the last occurrence at a path. */
  ghost function LastAt(log: seq<Occurrence>, path: seq<string>): Option<Shape> {
    if log == [] then None
    else if log[|log| - 1].path == path then Some(log[|log| - 1].shape)
    else LastAt(log[..|log| - 1], path)
  }

  lemma LogStep(log: seq<Occurrence>, last: Occurrence)
    ensures FirstSeen(log + [last]) == if HasShape(log, last.shape) then FirstSeen(log) else FirstSeen(log) + [last]
    ensures forall shape :: Count(log + [last], shape) == Count(log, shape) + if last.shape == shape then 1 else 0
    ensures forall path ::
              LastAt(log + [last], path) == if last.path == path then Some(last.shape) else LastAt(log, path)
  {
    assert (log + [last])[..|log|] == log;
  }

  lemma {:induction false} FirstSeenShapes(log: seq<Occurrence>)
    ensures forall shape :: HasShape(FirstSeen(log), shape) <==> HasShape(log, shape)
    ensures forall i, j :: 0 <= i < j < |FirstSeen(log)| ==> FirstSeen(log)[i].shape != FirstSeen(log)[j].shape
  {
    if log != [] {
      var init, last := log[..|log| - 1], log[|log| - 1];
      FirstSeenShapes(init);
      assert log == init + [last];
      forall shape
        ensures HasShape(FirstSeen(log), shape) <==> HasShape(log, shape)
      {
        HasShapeSnoc(init, last, shape);
        HasShapeSnoc(FirstSeen(init), last, shape);
      }
      if !HasShape(init, last.shape) {
        forall i | 0 <= i < |FirstSeen(init)|
          ensures FirstSeen(init)[i].shape != last.shape
        {
          assert !HasShape(FirstSeen(init), last.shape);
        }
      }
    }
  }

  lemma HasShapeSnoc(log: seq<Occurrence>, last: Occurrence, shape: Shape)
    ensures HasShape(log + [last], shape) <==> HasShape(log, shape) || last.shape == shape
  {
    if HasShape(log, shape) {
      var i :| 0 <= i < |log| && log[i].shape == shape;
      assert (log + [last])[i].shape == shape;
    }
    if last.shape == shape {
      assert (log + [last])[|log|].shape == shape;
    }
  }

  /** Where an entry was first seen: what was seen before it are the entries before it. */
  lemma {:induction false} FirstSeenWhere(log: seq<Occurrence>, i: nat) returns (at: nat)
    requires i < |FirstSeen(log)|
    ensures at < |log| && log[at] == FirstSeen(log)[i]
    ensures FirstSeen(log[..at]) == FirstSeen(log)[..i]
  {
    var init, last := log[..|log| - 1], log[|log| - 1];
    if i < |FirstSeen(init)| {
      at := FirstSeenWhere(init, i);
      assert log[..at] == init[..at];
      assert FirstSeen(log)[..i] == FirstSeen(init)[..i];
    } else {
      at := |log| - 1;
      assert FirstSeen(log)[..i] == FirstSeen(init);
    }
  }

  lemma {:induction false} LastAtSpec(log: seq<Occurrence>, path: seq<string>)
    ensures match LastAt(log, path)
            case Some(shape) => Occurrence(path, shape) in log
            case None => forall o :: o in log ==> o.path != path
  {
    if log != [] {
      LastAtSpec(log[..|log| - 1], path);
      assert log == log[..|log| - 1] + [log[|log| - 1]];
    }
  }

  ghost function Total(seen: seq<Occurrence>, log: seq<Occurrence>): nat {
    if seen == [] then 0
    else Total(seen[..|seen| - 1], log) + Count(log, seen[|seen| - 1].shape)
  }

  lemma {:induction false} TotalStep(seen: seq<Occurrence>, log: seq<Occurrence>, last: Occurrence)
    requires forall i, j :: 0 <= i < j < |seen| ==> seen[i].shape != seen[j].shape
    ensures Total(seen, log + [last]) == Total(seen, log) + if HasShape(seen, last.shape) then 1 else 0
  {
    if seen != [] {
      var init := seen[..|seen| - 1];
      TotalStep(init, log, last);
      LogStep(log, last);
      HasShapeSnoc(init, seen[|seen| - 1], last.shape);
      assert seen == init + [seen[|seen| - 1]];
      if HasShape(init, last.shape) {
        var i :| 0 <= i < |init| && init[i].shape == last.shape;
        assert seen[i].shape != seen[|seen| - 1].shape;
      }
    }
  }

  lemma {:induction false} CountUnseen(log: seq<Occurrence>, shape: Shape)
    requires !HasShape(log, shape)
    ensures Count(log, shape) == 0
  {
    if log != [] {
      var init := log[..|log| - 1];
      assert log == init + [log[|log| - 1]];
      HasShapeSnoc(init, log[|log| - 1], shape);
      CountUnseen(init, shape);
    }
  }

  /** Every occurrence is counted by exactly one shape. */
  lemma {:induction false} CountsAddUp(log: seq<Occurrence>)
    ensures Total(FirstSeen(log), log) == |log|
  {
    if log != [] {
      var init, last := log[..|log| - 1], log[|log| - 1];
      assert log == init + [last];
      CountsAddUp(init);
      FirstSeenShapes(init);
      TotalStep(FirstSeen(init), init, last);
      if !HasShape(init, last.shape) {
        LogStep(init, last);
        CountUnseen(init, last.shape);
        var seen := FirstSeen(log);
        assert seen[..|seen| - 1] == FirstSeen(init);
      }
    }
  }
}
