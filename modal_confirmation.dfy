/** components/ward/modal-confirmation.tsx: the confirmation dialog used for
    destructive and informational prompts, and its deprecated wrapper. */
module ModalConfirmation {
  import opened Optional

  /** `ConsentVariant`: 'info' | 'warning' | 'delete'. */
  datatype ConsentVariant = Info | Warning | Delete

  /** The button variants the dialog uses. */
  datatype ButtonVariant = InfoButton | WarningButton | Destructive

  /** What the deprecated wrapper accepts: a consent variant, or the legacy
      'default' and 'destructive'. */
  datatype LegacyVariant = Consent(v: ConsentVariant) | Default | LegacyDestructive

  /** `variantToButtonVariant` */
  function ButtonVariantOf(v: ConsentVariant): (b: ButtonVariant)
    ensures b == Destructive <==> v == Delete
    ensures b == InfoButton <==> v == Info
    ensures b == WarningButton <==> v == Warning
  {
    match v
    case Info => InfoButton
    case Warning => WarningButton
    case Delete => Destructive
  }

  /** The wrapper's mapping as written: 'destructive' becomes 'delete', 'info'
      and 'warning' are kept, and everything else, 'delete' included,
      becomes 'info'. An omitted variant is 'info'. */
  function LegacyVariantAsWritten(variant: Option<LegacyVariant>): (v: ConsentVariant)
  {
    var given := if variant.Some? then variant.value else Consent(Info);
    if given == LegacyDestructive then Delete
    else if given == Consent(Info) || given == Consent(Warning) then given.v
    else Info
  }

  /** A 'delete' prompt through the wrapper is shown as a plain information
      prompt: its confirm button is not destructive. */
  lemma AsWrittenDropsDelete()
    ensures LegacyVariantAsWritten(Some(Consent(Delete))) == Info
    ensures ButtonVariantOf(LegacyVariantAsWritten(Some(Consent(Delete)))) != Destructive
  {
  }

  /** The wrapper's mapping with 'delete' kept, as its own deprecation note
      ("use ConsentModal with variant=\"delete\"") implies. */
  function LegacyVariantOf(variant: Option<LegacyVariant>): (v: ConsentVariant)
    ensures variant == Some(LegacyDestructive) ==> v == Delete
    ensures variant.None? || variant == Some(Default) ==> v == Info
    ensures forall c :: variant == Some(Consent(c)) ==> v == c
  {
    match variant
    case None => Info
    case Some(Default) => Info
    case Some(LegacyDestructive) => Delete
    case Some(Consent(c)) => c
  }

  /** With the corrected mapping, the wrapper's confirm button is destructive
      exactly for 'delete' and 'destructive', and the mapping agrees with the
      as-written one everywhere else. */
  lemma LegacyVariantDestructive(variant: Option<LegacyVariant>)
    ensures ButtonVariantOf(LegacyVariantOf(variant)) == Destructive <==>
      variant == Some(LegacyDestructive) || variant == Some(Consent(Delete))
    ensures variant != Some(Consent(Delete)) ==> LegacyVariantOf(variant) == LegacyVariantAsWritten(variant)
  {
  }

  /** The dialog's state: the `loading` flag, how many times `onConfirm` was
      started, and the values passed to `onOpenChange`. */
  class ConsentModalState {
    var loading: bool
    var confirmCalls: nat
    var openChanges: seq<bool>

    constructor ()
      ensures !loading && confirmCalls == 0 && openChanges == []
    {
      loading := false;
      confirmCalls := 0;
      openChanges := [];
    }

    /** The confirm button: disabled while loading; otherwise loading is set
        and `onConfirm` starts. */
    method PressConfirm() returns (started: bool)
      modifies this
      ensures started == !old(loading)
      ensures loading
      ensures confirmCalls == old(confirmCalls) + (if started then 1 else 0)
      ensures openChanges == old(openChanges)
    {
      started := !loading;
      if started {
        loading := true;
        confirmCalls := confirmCalls + 1;
      }
    }

    /** `onConfirm` settles: the dialog closes only when it succeeded, and
        loading is cleared either way (`finally`). */
    method ConfirmSettled(succeeded: bool)
      requires loading
      modifies this
      ensures !loading
      ensures openChanges == old(openChanges) + (if succeeded then [false] else [])
      ensures confirmCalls == old(confirmCalls)
    {
      if succeeded {
        openChanges := openChanges + [false];
      }
      loading := false;
    }

    /** The cancel button: disabled while loading; otherwise the dialog
        closes. */
    method PressCancel()
      modifies this
      ensures openChanges == old(openChanges) + (if old(loading) then [] else [false])
      ensures loading == old(loading) && confirmCalls == old(confirmCalls)
    {
      if !loading {
        openChanges := openChanges + [false];
      }
    }
  }

  /** A double press starts `onConfirm` once; the dialog closes only after a
      success, and it can be confirmed again after a failure. */
  method ConfirmTwice(modal: ConsentModalState, succeeded: bool)
    requires !modal.loading
    modifies modal
    ensures modal.confirmCalls == old(modal.confirmCalls) + 1 && !modal.loading
    ensures modal.openChanges == old(modal.openChanges) + (if succeeded then [false] else [])
  {
    var first := modal.PressConfirm();
    var second := modal.PressConfirm();
    assert first && !second;
    modal.ConfirmSettled(succeeded);
  }
}
