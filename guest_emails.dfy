/**
 * Changing the contact address of an application: the borrower proposes a
 * new address, which is held with a confirmation token until the borrower
 * confirms it with that token. The borrower's own email is never changed.
 */
module GuestEmails {
  import opened Base
  import opened Models
  import opened Dependencies
  import Text

  /** The separator between the proposed address and its token in the stored value. */
  const Separator: string := "---"

  /** The stored value that holds a proposed address and its token. */
  function PendingToken(newEmail: string, token: string): string
  {
    newEmail + Separator + token
  }

  /** Proposing a new address: it is held, with its token, until confirmed. */
  function ChangeEmailStep(a: Application, newEmail: string, generateUuid: string -> string): (c: Application)
    ensures c.pendingEmailConfirmation
    ensures c.primaryEmail == a.primaryEmail
    ensures c == a.(confirmationEmailToken := c.confirmationEmailToken, pendingEmailConfirmation := true)
  {
    a.(confirmationEmailToken := PendingToken(newEmail, generateUuid(newEmail)), pendingEmailConfirmation := true)
  }

  /**
   * Confirming a proposed address: 422 when no change is pending, a value
   * error when the stored value has no separator, 403 when the token is not
   * the stored one; otherwise the stored address becomes the application's
   * and the pending change is cleared.
   */
  function ConfirmEmailStep(a: Application, token: string): (r: Result<Application>)
    ensures !a.pendingEmailConfirmation ==> r == Err(Http(Unprocessable))
    ensures r.Ok? <==> a.pendingEmailConfirmation && Text.SplitFirstTwo(a.confirmationEmailToken, Separator).Ok?
                       && Text.SplitFirstTwo(a.confirmationEmailToken, Separator).value.1 == token
    ensures a.pendingEmailConfirmation && !Text.Contains(a.confirmationEmailToken, Separator) ==> r == Err(ValueError)
    ensures r.Err? && a.pendingEmailConfirmation && Text.Contains(a.confirmationEmailToken, Separator) ==>
      r == Err(Http(Forbidden))
    ensures r.Ok? ==>
      && r.value.primaryEmail == Text.SplitFirstTwo(a.confirmationEmailToken, Separator).value.0
      && r.value == a.(primaryEmail := r.value.primaryEmail, pendingEmailConfirmation := false,
                       confirmationEmailToken := "")
  {
    if !a.pendingEmailConfirmation then Err(Http(Unprocessable))
    else match Text.SplitFirstTwo(a.confirmationEmailToken, Separator)
      case Err(e) => Err(e)
      case Ok((newEmail, stored)) =>
        if stored != token then Err(Http(Forbidden))
        else Ok(a.(primaryEmail := newEmail, pendingEmailConfirmation := false, confirmationEmailToken := ""))
  }

  /**
   * Proposing an address and confirming it with the token it was given
   * makes it the application's address and clears the pending change,
   * provided neither the address nor the token holds the separator and the
   * address does not end with its character.
   */
  lemma ChangeConfirmRoundTrip(a: Application, newEmail: string, generateUuid: string -> string)
    requires !Text.Contains(newEmail, Separator) && !Text.Contains(generateUuid(newEmail), Separator)
    requires newEmail == [] || newEmail[|newEmail| - 1] != '-'
    ensures ConfirmEmailStep(ChangeEmailStep(a, newEmail, generateUuid), generateUuid(newEmail))
      == Ok(a.(primaryEmail := newEmail, pendingEmailConfirmation := false, confirmationEmailToken := ""))
  {
    Text.SplitJoined(newEmail, generateUuid(newEmail), Separator);
  }

  /** Once confirmed, a second confirmation finds nothing pending (422). */
  lemma ConfirmTwice(a: Application, token: string, again: string)
    requires ConfirmEmailStep(a, token).Ok?
    ensures ConfirmEmailStep(ConfirmEmailStep(a, token).value, again) == Err(Http(Unprocessable))
  {
  }

  /**
   * Proposing a new address for an application: an invalid address is
   * refused with 422 and nothing changes; otherwise the address is held
   * with its token, the request is recorded and the confirmation message
   * is sent.
   */
  method ChangeEmail(db: Database, uuid: string, newEmail: string, payload: map<string, Value>,
                     isValidEmail: string -> bool, generateUuid: string -> string, now: Instant)
    returns (r: Result<int>)
    requires db.Valid()
    modifies db`applications, db`messages, db`actions
    ensures db.Valid()
    ensures var g := GuestLookup(old(db.applications), uuid, {}, [], now);
      && (g.Err? ==> r == g)
      && (g.Ok? && !isValidEmail(newEmail) ==> r == Err(Http(Unprocessable)))
      && (g.Ok? && isValidEmail(newEmail) ==> r == g)
    ensures r.Err? ==> unchanged(db)
    ensures r.Ok? ==>
      && db.applications == old(db.applications)[r.value := ChangeEmailStep(old(db.applications)[r.value], newEmail, generateUuid)]
      && db.actions == old(db.actions) + [Action(r.value, MsmeChangeEmail, now, payload, Guest)]
      && db.messages == old(db.messages) + [Message(r.value, EmailChangeConfirmation, "", None)]
  {
    r := GetScopedApplicationAsGuest(db, uuid, {}, [], now);
    if r.Err? {
      return;
    }
    if !isValidEmail(newEmail) {
      r := Err(Http(Unprocessable));
      return;
    }
    db.applications := db.applications[r.value := ChangeEmailStep(db.applications[r.value], newEmail, generateUuid)];
    db.actions := db.actions + [Action(r.value, MsmeChangeEmail, now, payload, Guest)];
    db.messages := db.messages + [Message(r.value, EmailChangeConfirmation, "", None)];
  }

  /**
   * Confirming a proposed address: the application takes the address if
   * the token matches and the confirmation is recorded; any refusal leaves
   * everything as it was.
   */
  method ConfirmEmail(db: Database, uuid: string, token: string, payload: map<string, Value>, now: Instant)
    returns (r: Result<int>)
    requires db.Valid()
    modifies db`applications, db`actions
    ensures db.Valid()
    ensures var g := GuestLookup(old(db.applications), uuid, {}, [], now);
      && (g.Err? ==> r == g)
      && (g.Ok? && ConfirmEmailStep(old(db.applications)[g.value], token).Err? ==>
            r == Err(ConfirmEmailStep(old(db.applications)[g.value], token).error))
      && (g.Ok? && ConfirmEmailStep(old(db.applications)[g.value], token).Ok? ==> r == g)
    ensures r.Err? ==> unchanged(db)
    ensures r.Ok? ==>
      && db.applications == old(db.applications)[r.value := ConfirmEmailStep(old(db.applications)[r.value], token).value]
      && db.actions == old(db.actions) + [Action(r.value, MsmeConfirmEmail, now, payload, Guest)]
  {
    r := GetScopedApplicationAsGuest(db, uuid, {}, [], now);
    if r.Err? {
      return;
    }
    var step := ConfirmEmailStep(db.applications[r.value], token);
    if step.Err? {
      r := Err(step.error);
      return;
    }
    db.applications := db.applications[r.value := step.value];
    db.actions := db.actions + [Action(r.value, MsmeConfirmEmail, now, payload, Guest)];
  }

  /**
   * Proposing an address and then confirming it with its token changes the
   * application's address and nothing about its borrower.
   */
  method ChangeThenConfirm(db: Database, uuid: string, newEmail: string, payload: map<string, Value>,
                           isValidEmail: string -> bool, generateUuid: string -> string, now: Instant)
    returns (changed: Result<int>, confirmed: Result<int>)
    requires db.Valid()
    requires !Text.Contains(newEmail, Separator) && !Text.Contains(generateUuid(newEmail), Separator)
    requires newEmail == [] || newEmail[|newEmail| - 1] != '-'
    modifies db
    ensures changed.Ok? ==> confirmed == changed
    ensures changed.Ok? ==>
      && changed.value in db.applications
      && db.applications[changed.value].primaryEmail == newEmail
      && !db.applications[changed.value].pendingEmailConfirmation
    ensures db.borrowers == old(db.borrowers)
  {
    changed := ChangeEmail(db, uuid, newEmail, payload, isValidEmail, generateUuid, now);
    if changed.Ok? {
      LookupAt(db.applications, changed.value, {}, [], now);
      ChangeConfirmRoundTrip(old(db.applications)[changed.value], newEmail, generateUuid);
    }
    confirmed := ConfirmEmail(db, uuid, generateUuid(newEmail), payload, now);
  }
}
