/** The advertising inquiry form: three text inputs and a "submitted" flag. The
    component's state hooks are the fields of a class and its handlers are methods. */
module AdModal {
  datatype InputField = Email | CompanyName | Message

  class InquiryForm {
    var email: string
    var companyName: string
    var message: string
    var isSubmitted: bool

    constructor()
      ensures email == "" && companyName == "" && message == "" && !isSubmitted
    {
      email := "";
      companyName := "";
      message := "";
      isSubmitted := false;
    }

    /** The `handleSubmit` guard: an e-mail and a message; the company is optional. */
    predicate CanSubmit()
      reads this
    {
      email != "" && message != ""
    }

    /** `disabled={!email || !message}` on the send button. */
    predicate SubmitDisabled()
      reads this
    {
      email == "" || message == ""
    }

    /** The button is disabled exactly when the handler would ignore a click. */
    lemma DisabledIffGuardFails()
      ensures SubmitDisabled() <==> !CanSubmit()
    {
    }

    /** The `onChange` of one input. */
    method Edit(field: InputField, value: string)
      modifies this
      ensures email == (if field == Email then value else old(email))
      ensures companyName == (if field == CompanyName then value else old(companyName))
      ensures message == (if field == Message then value else old(message))
      ensures isSubmitted == old(isSubmitted)
    {
      match field
      case Email => email := value;
      case CompanyName => companyName := value;
      case Message => message := value;
    }

    /** `handleSubmit`: with an e-mail and a message the form becomes submitted;
        otherwise nothing changes. The timed auto-close is not part of this model. */
    method HandleSubmit()
      modifies this
      ensures old(CanSubmit()) ==> isSubmitted
      ensures !old(CanSubmit()) ==> isSubmitted == old(isSubmitted)
      ensures email == old(email) && companyName == old(companyName) && message == old(message)
    {
      if email != "" && message != "" {
        isSubmitted := true;
      }
    }

    /** `handleClose`: every input is cleared and the form is no longer submitted. */
    method HandleClose()
      modifies this
      ensures email == "" && companyName == "" && message == "" && !isSubmitted
    {
      email := "";
      companyName := "";
      message := "";
      isSubmitted := false;
    }
  }

  /** From a fresh form, filling the inputs and submitting marks the form submitted
      exactly when the e-mail and the message are non-empty, whatever the company. */
  method FillAndSubmit(email: string, company: string, message: string) returns (f: InquiryForm)
    ensures fresh(f)
    ensures f.isSubmitted <==> email != "" && message != ""
    ensures f.email == email && f.companyName == company && f.message == message
  {
    f := new InquiryForm();
    f.Edit(Email, email);
    f.Edit(CompanyName, company);
    f.Edit(Message, message);
    f.HandleSubmit();
  }
}
