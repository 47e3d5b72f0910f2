/** The three-step "verify my school" wizard: school details, then the verification
    e-mail (institutional, or personal with supporting documents), then a
    confirmation. The component's state hooks are the fields of a class and its
    handlers are methods. */
module VerificationModal {
  import opened Common

  /** The five text inputs of step 1. */
  datatype StepOneField = School | DirectorName | DirectorPhone | Role | ContactEmail

  /** `email.includes('.edu.do') || email.includes('school') || email.includes('colegio')`. */
  predicate LooksInstitutional(email: string) {
    Contains(email, ".edu.do") || Contains(email, "school") || Contains(email, "colegio")
  }

  class Wizard {
    var step: int
    var selectedSchool: string
    var directorName: string
    var directorPhone: string
    var role: string
    var contactEmail: string
    var verificationEmail: string
    var isInstitutional: bool
    /** The chosen files, by name. */
    var documents: seq<string>

    /** The step is one of the three screens. */
    predicate Valid()
      reads this
    {
      1 <= step <= 3
    }

    predicate StepOneComplete()
      reads this
    {
      selectedSchool != "" && directorName != "" && directorPhone != "" && role != "" && contactEmail != ""
    }

    predicate StepTwoComplete()
      reads this
    {
      verificationEmail != "" && (isInstitutional || |documents| > 0)
    }

    /** The initial state of the hooks. */
    constructor()
      ensures Valid() && step == 1
      ensures selectedSchool == "" && directorName == "" && directorPhone == "" && role == "" && contactEmail == ""
      ensures verificationEmail == "" && isInstitutional && documents == []
    {
      step := 1;
      selectedSchool := "";
      directorName := "";
      directorPhone := "";
      role := "";
      contactEmail := "";
      verificationEmail := "";
      isInstitutional := true;
      documents := [];
    }

    /** The `onChange` of one step-1 input. */
    method EditStepOne(field: StepOneField, value: string)
      requires Valid()
      modifies this
      ensures Valid() && step == old(step)
      ensures selectedSchool == (if field == School then value else old(selectedSchool))
      ensures directorName == (if field == DirectorName then value else old(directorName))
      ensures directorPhone == (if field == DirectorPhone then value else old(directorPhone))
      ensures role == (if field == Role then value else old(role))
      ensures contactEmail == (if field == ContactEmail then value else old(contactEmail))
      ensures verificationEmail == old(verificationEmail) && isInstitutional == old(isInstitutional)
      ensures documents == old(documents)
    {
      match field
      case School => selectedSchool := value;
      case DirectorName => directorName := value;
      case DirectorPhone => directorPhone := value;
      case Role => role := value;
      case ContactEmail => contactEmail := value;
    }

    /** `handleEmailChange`: store the address and re-guess whether it is institutional. */
    method HandleEmailChange(email: string)
      requires Valid()
      modifies this
      ensures Valid() && step == old(step)
      ensures verificationEmail == email
      ensures isInstitutional <==> LooksInstitutional(email)
      ensures selectedSchool == old(selectedSchool) && directorName == old(directorName)
      ensures directorPhone == old(directorPhone) && role == old(role) && contactEmail == old(contactEmail)
      ensures documents == old(documents)
    {
      verificationEmail := email;
      var isInst := Contains(email, ".edu.do") || Contains(email, "school") || Contains(email, "colegio");
      isInstitutional := isInst;
    }

    /** `handleFileChange`: a selection replaces the documents; no file list keeps them. */
    method HandleFileChange(files: Option<seq<string>>)
      requires Valid()
      modifies this
      ensures Valid() && step == old(step)
      ensures documents == if files.Some? then files.value else old(documents)
      ensures selectedSchool == old(selectedSchool) && directorName == old(directorName)
      ensures directorPhone == old(directorPhone) && role == old(role) && contactEmail == old(contactEmail)
      ensures verificationEmail == old(verificationEmail) && isInstitutional == old(isInstitutional)
    {
      if files.Some? {
        documents := files.value;
      }
    }

    /** `handleContinue`: step 1 advances once its five fields are filled, step 2 once
        the e-mail is given and is institutional or backed by a document; otherwise,
        and on step 3, nothing changes. */
    method HandleContinue()
      requires Valid()
      modifies this
      ensures Valid()
      ensures old(step) == 1 && old(StepOneComplete()) ==> step == 2
      ensures old(step) == 2 && old(StepTwoComplete()) ==> step == 3
      ensures !(old(step) == 1 && old(StepOneComplete())) && !(old(step) == 2 && old(StepTwoComplete())) ==> step == old(step)
      ensures step == old(step) || step == old(step) + 1
      ensures selectedSchool == old(selectedSchool) && directorName == old(directorName)
      ensures directorPhone == old(directorPhone) && role == old(role) && contactEmail == old(contactEmail)
      ensures verificationEmail == old(verificationEmail) && isInstitutional == old(isInstitutional)
      ensures documents == old(documents)
    {
      if step == 1 {
        if selectedSchool != "" && directorName != "" && directorPhone != "" && role != "" && contactEmail != "" {
          step := 2;
        }
      } else if step == 2 {
        if verificationEmail != "" && (isInstitutional || |documents| > 0) {
          step := 3;
        }
      }
    }

    /** The back button, shown only past step 1. */
    method Back()
      requires Valid() && step > 1
      modifies this
      ensures Valid() && step == old(step) - 1
      ensures selectedSchool == old(selectedSchool) && directorName == old(directorName)
      ensures directorPhone == old(directorPhone) && role == old(role) && contactEmail == old(contactEmail)
      ensures verificationEmail == old(verificationEmail) && isInstitutional == old(isInstitutional)
      ensures documents == old(documents)
    {
      step := step - 1;
    }

    /** `handleClose`: back to step 1 with every text and the documents cleared; the
        institutional guess is kept. */
    method HandleClose()
      modifies this
      ensures Valid() && step == 1
      ensures selectedSchool == "" && directorName == "" && directorPhone == "" && role == "" && contactEmail == ""
      ensures verificationEmail == "" && documents == []
      ensures isInstitutional == old(isInstitutional)
    {
      step := 1;
      selectedSchool := "";
      directorName := "";
      directorPhone := "";
      role := "";
      contactEmail := "";
      verificationEmail := "";
      documents := [];
    }

    /** The review-time estimate on the confirmation screen. */
    function EstimatedTime(): (t: string)
      reads this
      ensures t == "1-3 días" <==> isInstitutional
      ensures t == "1-3 días" || t == "1-5 días"
    {
      if isInstitutional then "1-3 días" else "1-5 días"
    }

    /** The continue button is shown before the last step and reads `Continuar` on the
        first and `Verificar` on the second; the last step shows the closing button instead. */
    function ContinueLabel(): (caption: Option<string>)
      reads this
      ensures caption.None? <==> step >= 3
      ensures caption == Some("Continuar") <==> step == 1
      ensures step < 3 && step != 1 ==> caption == Some("Verificar")
    {
      if step < 3 then Some(if step == 1 then "Continuar" else "Verificar") else None
    }
  }

  /** Reaching the confirmation takes two successful continues from a fresh wizard:
      the step-1 details and then a usable e-mail. */
  method ReachConfirmation(school: string, name: string, phone: string, role: string, contact: string, email: string)
    returns (w: Wizard, ok: bool)
    ensures fresh(w) && w.Valid()
    ensures ok <==> w.step == 3
    ensures ok <==> school != "" && name != "" && phone != "" && role != "" && contact != "" && email != ""
  {
    w := new Wizard();
    w.EditStepOne(School, school);
    w.EditStepOne(DirectorName, name);
    w.EditStepOne(DirectorPhone, phone);
    w.EditStepOne(Role, role);
    w.EditStepOne(ContactEmail, contact);
    w.HandleContinue();
    var documentsNeeded := !LooksInstitutional(email);
    w.HandleEmailChange(email);
    if documentsNeeded {
      w.HandleFileChange(Some(["constancia.pdf"]));
    }
    w.HandleContinue();
    ok := w.step == 3;
  }
}
