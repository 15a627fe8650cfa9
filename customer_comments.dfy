/** The comment list of a customer
    (src/components/customers/CustomerComments.tsx): the add-comment dialog,
    its draft and the submit flow around the add-comment mutation, whose
    outcome is a parameter. */
module CustomerComments {

  import opened Wrappers
  import opened Text

  /** The body of the add-comment mutation. */
  datatype CommentRequest = CommentRequest(customerId: int, content: string)

  /** The request for a draft: nothing for a blank draft, otherwise the
      trimmed draft, which is itself neither blank nor padded. */
  function RequestFor(customerId: int, content: string): (r: Option<CommentRequest>)
    ensures r.None? <==> IsBlank(content)
    ensures r.Some? ==>
      (r.value.customerId == customerId && r.value.content != ""
       && Trim(r.value.content) == r.value.content)
  {
    TrimIdempotent(content);
    if IsBlank(content) then None else Some(CommentRequest(customerId, Trim(content)))
  }

  /** The dialog's local state. */
  class CommentDialog {
    const customerId: int
    var isDialogOpen: bool
    var newComment: string
    var isSubmitting: bool

    constructor (customerId: int)
      ensures this.customerId == customerId
      ensures !isDialogOpen && newComment == "" && !isSubmitting
    {
      this.customerId := customerId;
      isDialogOpen := false;
      newComment := "";
      isSubmitting := false;
    }

    /** `handleOpenDialog`: an empty draft in an open dialog. */
    method OpenDialog()
      modifies this
      ensures isDialogOpen && newComment == "" && isSubmitting == old(isSubmitting)
    {
      newComment := "";
      isDialogOpen := true;
    }

    /** `handleCloseDialog`: the dialog closes and the draft is dropped. */
    method CloseDialog()
      modifies this
      ensures !isDialogOpen && newComment == "" && isSubmitting == old(isSubmitting)
    {
      isDialogOpen := false;
      newComment := "";
    }

    /** Typing in the text area. */
    method SetDraft(value: string)
      modifies this
      ensures newComment == value
      ensures isDialogOpen == old(isDialogOpen) && isSubmitting == old(isSubmitting)
    {
      newComment := value;
    }

    /** `handleAddComment` up to the request: a blank content sends nothing
        and changes nothing; otherwise the dialog is submitting and the
        trimmed content is sent. */
    method AddComment(content: string) returns (request: Option<CommentRequest>)
      modifies this
      ensures request == RequestFor(customerId, content)
      ensures request.None? ==> unchanged(this)
      ensures request.Some? ==>
        (isSubmitting && isDialogOpen == old(isDialogOpen) && newComment == old(newComment))
    {
      if IsBlank(content) {
        request := None;
        return;
      }
      isSubmitting := true;
      request := Some(CommentRequest(customerId, Trim(content)));
    }

    /** The mutation's outcome: on success the dialog closes and the draft
        is cleared; a failure is swallowed and leaves both as they were.
        Submitting ends either way. */
    method ResolveAdd(succeeded: bool)
      modifies this
      ensures !isSubmitting
      ensures succeeded ==> !isDialogOpen && newComment == ""
      ensures !succeeded ==> isDialogOpen == old(isDialogOpen) && newComment == old(newComment)
    {
      if succeeded {
        isDialogOpen := false;
        newComment := "";
      }
      isSubmitting := false;
    }

    /** The submit button is disabled while submitting or while the draft
        is blank. */
    predicate SubmitDisabled()
      reads this
    {
      ButtonsDisabled(isSubmitting, newComment).0
    }

    /** The cancel button is disabled while submitting. */
    predicate CancelDisabled()
      reads this
    {
      ButtonsDisabled(isSubmitting, newComment).1
    }
  }

  /** The enablement of the submit and cancel buttons. An enabled submit
      button always sends a request. */
  function ButtonsDisabled(isSubmitting: bool, draft: string): (d: (bool, bool))
    ensures d.0 <==> isSubmitting || IsBlank(draft)
    ensures d.1 <==> isSubmitting
    ensures !d.0 ==> RequestFor(0, draft).Some?
  {
    (isSubmitting || IsBlank(draft), isSubmitting)
  }

  /** A whole round: open, type, submit and succeed ends with a closed
      dialog and an empty draft after sending the trimmed text; a failure
      leaves the draft for another try. */
  method Round(customerId: int, typed: string, succeeded: bool)
    returns (dialog: CommentDialog, request: Option<CommentRequest>)
    ensures request == RequestFor(customerId, typed)
    ensures !dialog.isSubmitting
    ensures request.Some? && succeeded ==> !dialog.isDialogOpen && dialog.newComment == ""
    ensures request.Some? && !succeeded ==> dialog.isDialogOpen && dialog.newComment == typed
    ensures request.None? ==> dialog.isDialogOpen && dialog.newComment == typed
  {
    dialog := new CommentDialog(customerId);
    dialog.OpenDialog();
    dialog.SetDraft(typed);
    request := dialog.AddComment(dialog.newComment);
    if request.Some? {
      dialog.ResolveAdd(succeeded);
    }
  }
}
