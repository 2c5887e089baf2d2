/** `frontend/components/ui/CopyButton.tsx`: a copy button whose feedback is
    reset by a timer that does not check which click scheduled it. */
module CopyButton {

  class Button {
    /** The `value` prop: the text a click copies. */
    const value: string
    /** What the system clipboard holds. */
    var clipboard: string
    var copied: bool
    /** Reset timers scheduled and not yet fired. */
    var pendingResets: nat

    constructor(value: string, clipboard: string)
      ensures this.value == value && this.clipboard == clipboard
      ensures !copied && pendingResets == 0
    {
      this.value := value;
      this.clipboard := clipboard;
      copied := false;
      pendingResets := 0;
    }

    /** A click; `writeSucceeds` is whether `navigator.clipboard.writeText`
        resolves. A rejected write stops the handler before any update. */
    method Click(writeSucceeds: bool)
      modifies this
      ensures writeSucceeds ==> clipboard == value && copied && pendingResets == old(pendingResets) + 1
      ensures !writeSucceeds ==>
                clipboard == old(clipboard) && copied == old(copied) && pendingResets == old(pendingResets)
    {
      if writeSucceeds {
        clipboard := value;
        copied := true;
        pendingResets := pendingResets + 1;
      }
    }

    /** One scheduled `setCopied(false)` fires. */
    method FireReset()
      requires pendingResets > 0
      modifies this
      ensures !copied && pendingResets == old(pendingResets) - 1
      ensures clipboard == old(clipboard)
    {
      copied := false;
      pendingResets := pendingResets - 1;
    }

    function Label(): (r: string)
      reads this
      ensures r == "Copied" <==> copied
      ensures !copied ==> r == "Copy"
    {
      if copied then "Copied" else "Copy"
    }
  }

  /** Two clicks in a row, then the first click's timer fires: the button
      already reads "Copy" although the second click's reset is still due. */
  method EarlyResetClearsLaterClick() returns (text: string, stillPending: nat)
    ensures text == "Copy" && stillPending == 1
  {
    var b := new Button("resource-pack-sha1=0", "");
    b.Click(true);
    b.Click(true);
    b.FireReset();
    text := b.Label();
    stillPending := b.pendingResets;
  }
}
