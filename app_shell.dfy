/** The layout state of `frontend/components/AppShell.tsx`: whether the page
    is a file landing page, and the measured header height published as the
    `--app-header-h` CSS variable. */
module AppShell {
  import opened Common

  const InitialHeaderHeight: nat := 72

  /** The `update` rule: adopt a measurement that is non-zero and new. */
  function NextHeight(current: nat, measured: nat): (r: nat)
    ensures r == current || r == measured
    ensures measured != 0 ==> r == measured
    ensures measured == 0 ==> r == current
  {
    if measured != 0 && measured != current then measured else current
  }

  /** Measuring the same height again changes nothing, so re-running the
      effect after a change settles at once. */
  lemma NextHeightIdempotent(current: nat, measured: nat)
    ensures NextHeight(NextHeight(current, measured), measured) == NextHeight(current, measured)
  {
  }

  /** `${headerHeight}px`. */
  function CssVar(height: nat): (r: string)
    ensures |r| >= 3 && EndsWith(r, "px") && r[..|r| - 2] == NatToString(height)
  {
    var digits := NatToString(height);
    var r := digits + "px";
    assert r[..|r| - 2] == digits;
    assert r[|r| - 2..] == "px";
    r
  }

  /** `window.location.pathname.startsWith('/files/')`; None stands for a
      failed read of the location. */
  function IsFilePagePath(pathname: Option<string>): (r: bool)
    ensures r <==> pathname.Some? && |pathname.value| >= 7 && pathname.value[..7] == "/files/"
  {
    pathname.Some? && StartsWith(pathname.value, "/files/")
  }

  class Shell {
    var isFilePage: bool
    var headerHeight: nat

    ghost predicate Valid()
      reads this
    {
      headerHeight != 0
    }

    constructor()
      ensures Valid()
      ensures !isFilePage && headerHeight == InitialHeaderHeight
    {
      isFilePage := false;
      headerHeight := InitialHeaderHeight;
    }

    /** The mount effect. */
    method DetectFilePage(pathname: Option<string>)
      modifies this
      ensures isFilePage == IsFilePagePath(pathname)
      ensures headerHeight == old(headerHeight)
    {
      if pathname.None? {
        isFilePage := false;
      } else {
        isFilePage := StartsWith(pathname.value, "/files/");
      }
    }

    /** `update()` with the header's `offsetHeight`. The height is never 0. */
    method Update(measured: nat)
      requires Valid()
      modifies this
      ensures Valid()
      ensures headerHeight == NextHeight(old(headerHeight), measured)
      ensures isFilePage == old(isFilePage)
    {
      if measured != 0 && measured != headerHeight {
        headerHeight := measured;
      }
    }

    function HeaderVar(): string
      reads this
    {
      CssVar(headerHeight)
    }
  }
}
