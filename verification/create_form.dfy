/** The create-project form (client/pages/projects/create.js): its validator, and the
    defaulting the submit handler applies before calling the factory. `isAddress`,
    `isPosInt` and `isPosNum` are JavaScript coercion checks taken as opaque predicates. */
module CreateForm {
  import opened Wrappers
  import opened Text

  datatype ImageFile = ImageFile(size: nat, mimeType: string)

  /** The `deadline` form value: the initial empty string (which has no `getTime`), a cleared
      date picker (`null`), or a calendar date in milliseconds since the epoch. */
  datatype DeadlineValue = NotADate | Cleared | Date(ms: int)

  datatype FormValues = FormValues(
    recipient: string,
    minimumContribution: string,
    targetContribution: string,
    deadline: DeadlineValue,
    nftName: string,
    nftSymbol: string,
    name: string,
    description: string,
    image: Option<ImageFile>)

  /** The checks the page imports from libraries. */
  datatype Checks = Checks(
    isAddress: string -> bool,
    isPosInt: string -> bool,
    isPosNum: string -> bool)

  datatype Field = Upload | Name | Deadline | Recipient | MinimumContribution | TargetContribution

  const MaxImageBytes: nat := 5_000_000
  const PngType := "image/png"
  const MinNameLength: nat := 5
  const NftNameLength: nat := 10
  const NftSymbolLength: nat := 4

  const UploadMessage := "Invalid image file. Please upload a PNG not bigger than 5M"
  const NameMessage := "Name is required to be at least 5 characters"
  const DeadlineRequiredMessage := "Deadline is required to be a valid calendar date/time"
  const DeadlinePastMessage := "Deadline must be in the future"
  const RecipientMessage := "Recipient must be a valid Ethereum address"
  const MinimumMessage := "Minimum contribution must be greater or equal zero"
  const TargetMessage := "Target contribution must be greater than zero"

  // ---------------------------------------------------------------------------
  // The rules
  // ---------------------------------------------------------------------------

  predicate ImageRejected(image: Option<ImageFile>) {
    image.Some? && (image.value.size > MaxImageBytes || image.value.mimeType != PngType)
  }

  /** Rejected when blank after trimming, or shorter than five characters before trimming. */
  predicate NameRejected(name: string) {
    Trim(name) == "" || |name| < MinNameLength
  }

  /** Only a non-blank recipient is checked, and it is checked untrimmed. */
  predicate RecipientRejected(recipient: string, checks: Checks) {
    Trim(recipient) != "" && !checks.isAddress(recipient)
  }

  /** Why the thrown value escapes the validator. */
  datatype Thrown = TypeError

  /** The deadline rule as written: reading `getTime` of `null` throws. */
  function DeadlineCheckAsWritten(d: DeadlineValue, nowMs: int): (r: Result<Option<string>, Thrown>)
    ensures r.Failure? <==> d.Cleared?
    ensures d.Date? ==> r == Success(if d.ms < nowMs then Some(DeadlinePastMessage) else None)
  {
    match d
    case NotADate => Success(Some(DeadlineRequiredMessage))
    case Cleared => Failure(TypeError)
    case Date(ms) => Success(if ms < nowMs then Some(DeadlinePastMessage) else None)
  }

  /** Clearing the date picker makes the validator throw instead of reporting a missing deadline. */
  lemma ClearedDeadlineThrows(nowMs: int)
    ensures DeadlineCheckAsWritten(Cleared, nowMs) == Failure(TypeError)
  {
  }

  /** The deadline rule as intended: a missing deadline (never set or cleared) and a past one
      give distinct errors, checked in that order; a date at or after `nowMs` passes. */
  function DeadlineError(d: DeadlineValue, nowMs: int): (e: Option<string>)
    ensures e.None? <==> d.Date? && d.ms >= nowMs
    ensures !d.Date? ==> e == Some(DeadlineRequiredMessage)
    ensures d.Date? && d.ms < nowMs ==> e == Some(DeadlinePastMessage)
  {
    match d
    case Date(ms) => if ms < nowMs then Some(DeadlinePastMessage) else None
    case _ => Some(DeadlineRequiredMessage)
  }

  /** The corrected rule agrees with the written one on every input the written one handles. */
  lemma DeadlineCorrectionConservative(d: DeadlineValue, nowMs: int)
    requires !d.Cleared?
    ensures DeadlineCheckAsWritten(d, nowMs) == Success(DeadlineError(d, nowMs))
  {
  }

  /** All six rules pass. */
  predicate FormValid(v: FormValues, nowMs: int, checks: Checks) {
    && !ImageRejected(v.image)
    && !NameRejected(v.name)
    && DeadlineError(v.deadline, nowMs).None?
    && !RecipientRejected(v.recipient, checks)
    && checks.isPosInt(v.minimumContribution)
    && checks.isPosNum(v.targetContribution)
  }

  /** The body of `validateForm` once each rule has been evaluated: every failing rule adds its
      message under its field and raises the error flag; the result is the negated flag. */
  method CollectErrors(imageBad: bool, nameBad: bool, deadlineError: Option<string>, recipientBad: bool,
                       minimumBad: bool, targetBad: bool)
    returns (ok: bool, errors: map<Field, string>)
    ensures ok <==> errors == map[]
    ensures ok <==> !imageBad && !nameBad && deadlineError.None? && !recipientBad && !minimumBad && !targetBad
    ensures Upload in errors <==> imageBad
    ensures Name in errors <==> nameBad
    ensures Deadline in errors <==> deadlineError.Some?
    ensures Recipient in errors <==> recipientBad
    ensures MinimumContribution in errors <==> minimumBad
    ensures TargetContribution in errors <==> targetBad
    ensures Deadline in errors ==> errors[Deadline] == deadlineError.value
  {
    var error := false;
    var newErrors: map<Field, string> := map[];

    if imageBad {
      newErrors := newErrors[Upload := UploadMessage];
      error := true;
    }

    if nameBad {
      newErrors := newErrors[Name := NameMessage];
      error := true;
    }

    if deadlineError.Some? {
      newErrors := newErrors[Deadline := deadlineError.value];
      error := true;
    }

    if recipientBad {
      newErrors := newErrors[Recipient := RecipientMessage];
      error := true;
    }

    if minimumBad {
      newErrors := newErrors[MinimumContribution := MinimumMessage];
      error := true;
    }

    if targetBad {
      newErrors := newErrors[TargetContribution := TargetMessage];
      error := true;
    }

    assert error ==> newErrors != map[] by {
      if imageBad { assert Upload in newErrors; }
      else if nameBad { assert Name in newErrors; }
      else if deadlineError.Some? { assert Deadline in newErrors; }
      else if recipientBad { assert Recipient in newErrors; }
      else if minimumBad { assert MinimumContribution in newErrors; }
      else if targetBad { assert TargetContribution in newErrors; }
    }
    ok := !error;
    errors := newErrors;
  }

  /** `validateForm`: the form is valid exactly when no rule added a message, and each field
      has a message exactly when its rule fails. */
  method ValidateForm(v: FormValues, nowMs: int, checks: Checks) returns (ok: bool, errors: map<Field, string>)
    ensures ok <==> errors == map[]
    ensures ok <==> FormValid(v, nowMs, checks)
    ensures Upload in errors <==> ImageRejected(v.image)
    ensures Name in errors <==> NameRejected(v.name)
    ensures Deadline in errors <==> DeadlineError(v.deadline, nowMs).Some?
    ensures Recipient in errors <==> RecipientRejected(v.recipient, checks)
    ensures MinimumContribution in errors <==> !checks.isPosInt(v.minimumContribution)
    ensures TargetContribution in errors <==> !checks.isPosNum(v.targetContribution)
    ensures Deadline in errors ==> errors[Deadline] == DeadlineError(v.deadline, nowMs).value
  {
    ok, errors := CollectErrors(
      ImageRejected(v.image),
      NameRejected(v.name),
      DeadlineError(v.deadline, nowMs),
      RecipientRejected(v.recipient, checks),
      !checks.isPosInt(v.minimumContribution),
      !checks.isPosNum(v.targetContribution));
  }

  /** A form without an image never fails the image rule. */
  lemma AbsentImageNeverRejected()
    ensures !ImageRejected(None)
  {
  }

  /** A name of at least five characters with one non-whitespace character passes, however
      much of it is padding. */
  lemma PaddedNameAccepted(name: string, i: nat)
    requires |name| >= MinNameLength
    requires i < |name| && !IsJsWhitespace(name[i])
    ensures !NameRejected(name)
  {
    TrimEmptyIffAllWhitespace(name);
  }

  /** A blank name is rejected whatever its length. */
  lemma BlankNameRejected(name: string)
    requires AllWhitespace(name)
    ensures NameRejected(name)
  {
    TrimEmptyIffAllWhitespace(name);
  }

  /** A blank or whitespace-only recipient never fails, whatever `isAddress` says. */
  lemma BlankRecipientAccepted(recipient: string, checks: Checks)
    requires AllWhitespace(recipient)
    ensures !RecipientRejected(recipient, checks)
  {
    TrimEmptyIffAllWhitespace(recipient);
  }

  // ---------------------------------------------------------------------------
  // Submission
  // ---------------------------------------------------------------------------

  /** The arguments of the factory's `createProject` call. */
  datatype CreateProjectArgs = CreateProjectArgs(
    recipient: string,
    cid: string,
    minimumContribution: string,
    targetContribution: string,
    deadline: int,
    nftNamePrefix: string,
    nftSymbolPrefix: string)

  /** `Math.floor(ms / 1000)`: whole seconds, rounding toward negative infinity. */
  function DeadlineSeconds(ms: int): (s: int)
    ensures s * 1000 <= ms < s * 1000 + 1000
  {
    ms / 1000
  }

  /** A blank NFT name or symbol is replaced by the first characters of the project name;
      anything else is used exactly as typed, untrimmed. */
  function DefaultedPrefix(field: string, name: string, length: nat): (r: string)
    ensures Trim(field) == "" ==> |r| == Min(length, |name|) && StartsWith(name, r)
    ensures Trim(field) != "" ==> r == field
  {
    if Trim(field) == "" then Prefix(name, length) else field
  }

  /** The recipient sent on-chain: the connected account only when the field is exactly empty. */
  function DefaultedRecipient(field: string, account: string): (r: string)
    ensures field == "" ==> r == account
    ensures field != "" ==> r == field
  {
    if field == "" then account else field
  }

  /** The submit handler after validation: the factory call's arguments. `toWei` is web3's
      ether-to-wei conversion and `cid` the metadata uploaded to IPFS. */
  function BuildCreateProjectArgs(v: FormValues, account: string, cid: string, toWei: string -> string): (a: CreateProjectArgs)
    requires v.deadline.Date?
    ensures a.deadline * 1000 <= v.deadline.ms < a.deadline * 1000 + 1000
    ensures a.recipient == DefaultedRecipient(v.recipient, account)
    ensures a.nftNamePrefix == DefaultedPrefix(v.nftName, v.name, NftNameLength)
    ensures a.nftSymbolPrefix == DefaultedPrefix(v.nftSymbol, v.name, NftSymbolLength)
    ensures a.minimumContribution == v.minimumContribution && a.cid == cid
    ensures a.targetContribution == toWei(v.targetContribution)
  {
    CreateProjectArgs(
      DefaultedRecipient(v.recipient, account),
      cid,
      v.minimumContribution,
      toWei(v.targetContribution),
      DeadlineSeconds(v.deadline.ms),
      DefaultedPrefix(v.nftName, v.name, NftNameLength),
      DefaultedPrefix(v.nftSymbol, v.name, NftSymbolLength))
  }

  /** `handleSubmit` up to the factory call: validate, then build the arguments.
      A valid form always carries a date, so the build step can always run. */
  method PrepareCreateProject(v: FormValues, nowMs: int, checks: Checks, account: string, cid: string, toWei: string -> string)
    returns (r: Result<CreateProjectArgs, map<Field, string>>)
    ensures r.Success? <==> FormValid(v, nowMs, checks)
    ensures r.Failure? ==> r.error != map[]
    ensures r.Success? ==> v.deadline.Date? && r.value == BuildCreateProjectArgs(v, account, cid, toWei)
  {
    var ok, errors := ValidateForm(v, nowMs, checks);
    if !ok {
      return Failure(errors);
    }
    r := Success(BuildCreateProjectArgs(v, account, cid, toWei));
  }

  /** A whitespace-only recipient passes validation and reaches the factory unchanged. */
  lemma WhitespaceRecipientSentAsIs(v: FormValues, account: string, cid: string, toWei: string -> string, checks: Checks)
    requires v.deadline.Date?
    requires v.recipient != "" && AllWhitespace(v.recipient)
    ensures !RecipientRejected(v.recipient, checks)
    ensures BuildCreateProjectArgs(v, account, cid, toWei).recipient == v.recipient
  {
    BlankRecipientAccepted(v.recipient, checks);
  }
}
