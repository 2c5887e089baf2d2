/** The logic of `frontend/components/MetadataDisplay.tsx`: the
    `server.properties` snippet, the tag chips, the copy feedback with its
    guarded reset timer, the clipboard fallback, and the mobile tab selector. */
module MetadataDisplay {
  import opened Common
  import UploadService

  /** The snippet shown for copying: two lines, no final newline. */
  function ServerPropertiesSnippet(downloadUrl: string, sha1: string): string
  {
    "resource-pack=" + downloadUrl + "\n" + "resource-pack-sha1=" + sha1
  }

  /** Read line by line, the snippet is exactly the two properties. */
  lemma SnippetLines(downloadUrl: string, sha1: string)
    requires '\n' !in downloadUrl && '\n' !in sha1
    ensures Split(ServerPropertiesSnippet(downloadUrl, sha1), '\n')
            == ["resource-pack=" + downloadUrl, "resource-pack-sha1=" + sha1]
  {
    var l1 := "resource-pack=" + downloadUrl;
    var l2 := "resource-pack-sha1=" + sha1;
    assert '\n' !in "resource-pack=";
    assert '\n' !in "resource-pack-sha1=";
    assert '\n' !in l1 && '\n' !in l2;
    assert ServerPropertiesSnippet(downloadUrl, sha1) == l1 + ['\n'] + l2;
    SplitConcat(l1, '\n', l2);
  }

  /** The backend's snippet for the same link and hash is this one plus a
      final newline. */
  lemma BackendSnippetEndsWithNewline(downloadUrl: string, sha1: string)
    ensures UploadService.ServerPropertiesSnippet(downloadUrl, sha1)
            == ServerPropertiesSnippet(downloadUrl, sha1) + "\n"
  {
    assert UploadService.ServerPropertiesSnippet(downloadUrl, sha1)
           == "resource-pack=" + downloadUrl + "\n" + "resource-pack-sha1=" + sha1 + "\n";
  }

  // ---------------------------------------------------------------- tags

  const MaxTags: nat := 8

  function Take(s: seq<string>, n: nat): (r: seq<string>)
    ensures |r| <= n && |r| <= |s|
    ensures r == s[..|r|]
    ensures |s| <= n ==> r == s
  {
    if |s| <= n then s else s[..n]
  }

  /** The chips rendered for `file.tags`: split on ',', trimmed, blanks
      dropped, the first eight kept. Nothing removes repeats; an empty or
      missing value renders no chip. */
  function RenderedTags(tags: Option<string>): (r: seq<string>)
    ensures |r| <= MaxTags
    ensures forall i :: 0 <= i < |r| ==> r[i] != [] && Strip(r[i]) == r[i]
    ensures tags.Some? ==> r == Take(KeepNonBlank(Split(tags.value, ',')), MaxTags)
  {
    if tags.None? then []
    else if tags.value == "" then
      NoTagsInEmpty();
      []
    else Take(KeepNonBlank(Split(tags.value, ',')), MaxTags)
  }

  lemma NoTagsInEmpty()
    ensures KeepNonBlank(Split("", ',')) == []
  {
    assert Split("", ',') == [""];
    assert Strip("") == "";
  }

  /** A tag given twice is shown twice. */
  lemma RepeatedTagShownTwice(t: string)
    requires t != [] && ',' !in t && Strip(t) == t
    ensures RenderedTags(Some(t + "," + t)) == [t, t]
  {
    assert t + "," + t == t + [','] + t;
    SplitConcat(t, ',', t);
    var pieces := Split(t + "," + t, ',');
    assert pieces == [t, t];
    assert [t][1..] == [];
    assert KeepNonBlank([t]) == [t];
    assert [t, t][1..] == [t];
    assert KeepNonBlank(pieces) == [t, t];
    assert Take([t, t], MaxTags) == [t, t];
  }

  // ---------------------------------------------------------------- copy feedback

  datatype Tab = CopyTab | StatsTab | SafetyTab

  /** `setCopiedKey((k) => (k === key ? null : k))`. */
  function AfterReset(current: Option<string>, key: string): Option<string>
  {
    if current == Some(key) then None else current
  }

  /** A reset clears the feedback only for its own key. */
  lemma ResetIsGuarded(current: Option<string>, key: string)
    ensures AfterReset(current, key) == None || AfterReset(current, key) == current
    ensures current != Some(key) ==> AfterReset(current, key) == current
    ensures AfterReset(AfterReset(current, key), key) == AfterReset(current, key)
  {
  }

  /** `document.body.removeChild(node)`: drops the first occurrence. */
  function RemoveChild(children: seq<nat>, node: nat): (r: seq<nat>)
    ensures |r| <= |children|
  {
    if children == [] then []
    else if children[0] == node then children[1..]
    else [children[0]] + RemoveChild(children[1..], node)
  }

  /** Removing a node that was just appended, and was not there before,
      gives back the children as they were. */
  lemma {:induction false} RemoveAppended(children: seq<nat>, node: nat)
    requires node !in children
    ensures RemoveChild(children + [node], node) == children
    decreases |children|
  {
    if children == [] {
      assert [] + [node] == [node];
    } else {
      assert (children + [node])[1..] == children[1..] + [node];
      RemoveAppended(children[1..], node);
      assert [children[0]] + children[1..] == children;
    }
  }

  /** The component state: `copiedKey`, `mobileTab`, the system clipboard,
      the children of `document.body` (as node numbers, `nextNode` being the
      next fresh one) and the reset timers scheduled and not yet fired. */
  class Display {
    var copiedKey: Option<string>
    var mobileTab: Tab
    var clipboard: string
    var bodyChildren: seq<nat>
    var nextNode: nat
    var timers: seq<string>

    ghost predicate Valid()
      reads this
    {
      forall i :: 0 <= i < |bodyChildren| ==> bodyChildren[i] < nextNode
    }

    constructor(clipboard: string, body: seq<nat>, nextNode: nat)
      requires forall i :: 0 <= i < |body| ==> body[i] < nextNode
      ensures Valid()
      ensures copiedKey == None && mobileTab == CopyTab && timers == []
      ensures this.clipboard == clipboard && bodyChildren == body && this.nextNode == nextNode
    {
      copiedKey := None;
      mobileTab := CopyTab;
      this.clipboard := clipboard;
      bodyChildren := body;
      this.nextNode := nextNode;
      timers := [];
    }

    /** Whether the button for `k` reads "Copied". */
    predicate IsCopied(k: string)
      reads this
    {
      copiedKey == Some(k)
    }

    /** `copyToClipboard(key, value)`; `clipboardWorks` is whether
        `navigator.clipboard.writeText` resolves. Either way the value ends up
        on the clipboard, the key is shown as copied and a reset is scheduled;
        the fallback's temporary textarea leaves the body as it was. */
    method Copy(key: string, value: string, clipboardWorks: bool)
      requires Valid()
      modifies this
      ensures Valid()
      ensures copiedKey == Some(key) && clipboard == value
      ensures timers == old(timers) + [key]
      ensures bodyChildren == old(bodyChildren) && mobileTab == old(mobileTab)
    {
      if clipboardWorks {
        clipboard := value;
      } else {
        var ta := nextNode;
        nextNode := nextNode + 1;
        bodyChildren := bodyChildren + [ta];
        clipboard := value;
        RemoveAppended(bodyChildren[..|bodyChildren| - 1], ta);
        assert bodyChildren[..|bodyChildren| - 1] + [ta] == bodyChildren;
        bodyChildren := RemoveChild(bodyChildren, ta);
      }
      copiedKey := Some(key);
      timers := timers + [key];
    }

    /** Timer `i` fires and applies the guarded reset for its key. */
    method FireTimer(i: nat)
      requires i < |timers|
      modifies this
      ensures copiedKey == AfterReset(old(copiedKey), old(timers)[i])
      ensures timers == old(timers)[..i] + old(timers)[i + 1..]
      ensures clipboard == old(clipboard) && bodyChildren == old(bodyChildren)
      ensures nextNode == old(nextNode) && mobileTab == old(mobileTab)
    {
      copiedKey := AfterReset(copiedKey, timers[i]);
      timers := timers[..i] + timers[i + 1..];
    }

    /** `setMobileTab(id)`. */
    method SelectTab(t: Tab)
      modifies this
      ensures mobileTab == t
      ensures copiedKey == old(copiedKey) && timers == old(timers) && clipboard == old(clipboard)
      ensures bodyChildren == old(bodyChildren) && nextNode == old(nextNode)
    {
      mobileTab := t;
    }
  }

  /** At most one button reads "Copied". */
  lemma AtMostOneCopied(d: Display, k1: string, k2: string)
    requires d.IsCopied(k1) && d.IsCopied(k2)
    ensures k1 == k2
  {
  }

  /** Which of the copy, stats and safety groups the mobile layout renders:
      each group has its own guard on the selected tab. */
  function ShownGroups(tab: Tab): (r: set<Tab>)
    ensures r == {tab}
  {
    (if tab == CopyTab then {CopyTab} else {})
    + (if tab == StatsTab then {StatsTab} else {})
    + (if tab == SafetyTab then {SafetyTab} else {})
  }

  /** Copying A, then B, then letting A's timer fire leaves B shown. */
  method StaleTimerKeepsNewerKey(a: string, b: string) returns (shown: Option<string>)
    requires a != b
    ensures shown == Some(b)
  {
    var d := new Display("", [], 0);
    d.Copy(a, "x", true);
    d.Copy(b, "y", false);
    d.FireTimer(0);
    shown := d.copiedKey;
  }
}
