/**
 * The open state of a confirmation dialog
 * (components/dialogs/ConfirmationDialog.tsx). The dialog is controlled when
 * the `isOpen` prop is not null and uncontrolled otherwise; `disabled` guards
 * opening and cancelling. Handlers return the callbacks they invoke, in order.
 */
module ConfirmationDialog {
  import opened Wrappers

  datatype Callback = OnConfirm | OnCancel

  class Dialog {
    var isOpen: Option<bool>
    var disabled: bool
    var open: bool

    /** In controlled mode the internal flag mirrors the prop (kept by the sync effect). */
    predicate Synced()
      reads this
    {
      isOpen.Some? ==> open == isOpen.value
    }

    /** `effectiveOpen`: the prop when controlled, the internal flag otherwise;
        once synced it is always the internal flag. */
    function EffectiveOpen(): (r: bool)
      reads this
      ensures isOpen.Some? ==> r == isOpen.value
      ensures isOpen.None? ==> r == open
      ensures Synced() ==> r == open
    {
      if isOpen.Some? then isOpen.value else open
    }

    /** Mount: `open` starts false, then the sync effect runs once. */
    constructor (isOpen: Option<bool>, disabled: bool)
      ensures this.isOpen == isOpen && this.disabled == disabled && Synced()
      ensures open == (isOpen == Some(true))
    {
      this.isOpen := isOpen;
      this.disabled := disabled;
      open := false;
      new;
      SyncEffect();
    }

    /** The effect on `[isOpen]`: copy a non-null prop into the internal flag. */
    method SyncEffect()
      modifies this
      ensures isOpen == old(isOpen) && disabled == old(disabled) && Synced()
      ensures open == if isOpen.Some? then isOpen.value else old(open)
    {
      if isOpen.None? {
        return;
      }
      open := isOpen.value;
    }

    /** A re-render with new props; the effect runs when `isOpen` changed. Returning to
        uncontrolled mode keeps whatever the internal flag held. */
    method Rerender(newIsOpen: Option<bool>, newDisabled: bool)
      modifies this
      requires Synced()
      ensures isOpen == newIsOpen && disabled == newDisabled && Synced()
      ensures open == if newIsOpen.Some? then newIsOpen.value else old(open)
    {
      var changed := newIsOpen != isOpen;
      isOpen, disabled := newIsOpen, newDisabled;
      if changed {
        SyncEffect();
      }
    }

    /** `handleClickOpen`: opens only when uncontrolled and enabled. */
    method HandleClickOpen()
      modifies this
      requires Synced()
      ensures isOpen == old(isOpen) && disabled == old(disabled) && Synced()
      ensures open == if !disabled && isOpen.None? then true else old(open)
    {
      if disabled || isOpen.Some? {
        return;
      }
      open := true;
    }

    /** `handleClose`: a no-op when disabled; otherwise `onCancel` once, and the flag
        drops only when uncontrolled. */
    method HandleClose() returns (calls: seq<Callback>)
      modifies this
      requires Synced()
      ensures isOpen == old(isOpen) && disabled == old(disabled) && Synced()
      ensures disabled ==> calls == [] && open == old(open)
      ensures !disabled ==> calls == [OnCancel] && open == (if isOpen.None? then false else old(open))
    {
      if disabled {
        return [];
      }
      calls := [OnCancel];
      if isOpen.Some? {
        return;
      }
      open := false;
    }

    /** `handleConfirm`: `onConfirm` once, even when disabled; closes only when uncontrolled. */
    method HandleConfirm() returns (calls: seq<Callback>)
      modifies this
      requires Synced()
      ensures isOpen == old(isOpen) && disabled == old(disabled) && Synced()
      ensures calls == [OnConfirm]
      ensures open == if isOpen.None? then false else old(open)
    {
      calls := [OnConfirm];
      if isOpen.Some? {
        return;
      }
      open := false;
    }

    /** `handleOpenChange`: ignored when controlled; when uncontrolled, closing goes
        through `handleClose` and opening sets the flag. */
    method HandleOpenChange(newOpen: bool) returns (calls: seq<Callback>)
      modifies this
      requires Synced()
      ensures isOpen == old(isOpen) && disabled == old(disabled) && Synced()
      ensures isOpen.Some? ==> calls == [] && open == old(open)
      ensures isOpen.None? && newOpen ==> calls == [] && open
      ensures isOpen.None? && !newOpen ==>
        (if disabled then calls == [] && open == old(open) else calls == [OnCancel] && !open)
    {
      if isOpen.Some? {
        return [];
      }
      if !newOpen {
        calls := HandleClose();
      } else {
        open := newOpen;
        calls := [];
      }
    }
  }

  /** The dialog at the top of the page (uncontrolled, enabled): a click opens it, a
      confirmation calls back once and shows it closed again. */
  method ClickThenConfirm() returns (calls: seq<Callback>, shownAfterClick: bool, shownAfterConfirm: bool)
    ensures shownAfterClick && !shownAfterConfirm && calls == [OnConfirm]
  {
    var d := new Dialog(None, false);
    d.HandleClickOpen();
    shownAfterClick := d.EffectiveOpen();
    calls := d.HandleConfirm();
    shownAfterConfirm := d.EffectiveOpen();
  }

  /** A controlled dialog ignores clicks and close requests: only the prop decides. */
  method ControlledIgnoresHandlers(prop: bool) returns (shown: bool, calls: seq<Callback>)
    ensures shown == prop && calls == []
  {
    var d := new Dialog(Some(prop), false);
    d.HandleClickOpen();
    calls := d.HandleOpenChange(!prop);
    shown := d.EffectiveOpen();
  }
}
