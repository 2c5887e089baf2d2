/** The lazy ad slot of `frontend/components/AdContainer.tsx`: it shows its
    placeholder once the slot has come near the viewport, and keeps showing it. */
module AdContainer {
  import opened Common

  /** Whether one observer callback batch has an intersecting entry. */
  predicate AnyIntersecting(entries: seq<bool>)
  {
    exists i :: 0 <= i < |entries| && entries[i]
  }

  /** `visible` after a series of observer callbacks, starting from `v`. */
  function VisibleAfter(v: bool, batches: seq<seq<bool>>): bool
    decreases |batches|
  {
    if batches == [] then v else VisibleAfter(v || AnyIntersecting(batches[0]), batches[1..])
  }

  /** `visible` holds after a series of callbacks exactly when it held before
      or some batch had an intersecting entry; in particular, once on it
      stays on. */
  lemma {:induction false} VisibleAfterIff(v: bool, batches: seq<seq<bool>>)
    ensures VisibleAfter(v, batches) <==> v || exists i :: 0 <= i < |batches| && AnyIntersecting(batches[i])
    decreases |batches|
  {
    if batches != [] {
      VisibleAfterIff(v || AnyIntersecting(batches[0]), batches[1..]);
      if exists i :: 0 <= i < |batches[1..]| && AnyIntersecting(batches[1..][i]) {
        var i :| 0 <= i < |batches[1..]| && AnyIntersecting(batches[1..][i]);
        assert AnyIntersecting(batches[i + 1]);
      }
      if exists i :: 0 <= i < |batches| && AnyIntersecting(batches[i]) {
        var i :| 0 <= i < |batches| && AnyIntersecting(batches[i]);
        if i > 0 {
          assert AnyIntersecting(batches[1..][i - 1]);
        }
      }
    }
  }

  class Slot {
    const placement: string
    var visible: bool

    constructor(placement: string)
      ensures this.placement == placement && !visible
    {
      this.placement := placement;
      visible := false;
    }

    /** The `IntersectionObserver` callback. */
    method OnEntries(entries: seq<bool>)
      modifies this
      ensures visible == VisibleAfter(old(visible), [entries])
    {
      if exists i :: 0 <= i < |entries| && entries[i] {
        visible := true;
      }
    }

    /** The placeholder text, shown exactly when visible; it names the placement. */
    function Placeholder(): (r: Option<string>)
      reads this
      ensures r.Some? <==> visible
      ensures visible ==> |r.value| >= 16 && r.value[..16] == "Ad placeholder: " && r.value[16..] == placement
    {
      if visible then Some("Ad placeholder: " + placement) else None
    }
  }
}
