/**
 * The contact route (backend/routes/contact.py): `POST /contact` checks
 * the four form fields and the e-mail, builds the record and hands it to
 * the store. The request body, the clock and the store are parameters.
 */
module Contact {
  import opened Wrappers
  import opened JsonValues
  import Dict
  import Firestore

  /** The fields the form must fill, in the order they are checked. */
  const REQUIRED_FIELDS: seq<string> := ["name", "email", "subject", "message"]

  const INVALID_EMAIL: string := "Format d'email invalide"

  /** The answer of the route and its HTTP status. */
  datatype Response =
    | Created(id: string)          // 201, `success: True` and the stored id
    | BadRequest(error: string)    // 400, `success: False` and the reason
    | ServerError(details: string) // 500, `str(e)` of the exception

  function Status(r: Response): nat {
    match r
    case Created(_) => 201
    case BadRequest(_) => 400
    case ServerError(_) => 500
  }

  /** `f'Le champ "{field}" est requis'`. */
  function MissingField(field: string): string {
    "Le champ \"" + field + "\" est requis"
  }

  /** `data.get(field)`, with `None` for a missing key. */
  function Field(data: Dict.Dict<string, Json>, field: string): Json {
    Dict.Get(data, field).GetOr(JNull)
  }

  /** The first required field that is missing or empty, if any. */
  function FirstMissing(data: Dict.Dict<string, Json>, fields: seq<string>): (r: Option<string>)
    ensures r.Some? ==> r.value in fields && !Truthy(Field(data, r.value))
    ensures r.None? ==> forall f :: f in fields ==> Truthy(Field(data, f))
  {
    if fields == [] then None
    else if !Truthy(Field(data, fields[0])) then Some(fields[0])
    else FirstMissing(data, fields[1..])
  }

  /** When every field before `fields[k]` is filled and it is not, `fields[k]` is reported. */
  lemma {:induction false} FirstMissingIsFirst(data: Dict.Dict<string, Json>, fields: seq<string>, k: nat)
    requires k < |fields| && !Truthy(Field(data, fields[k]))
    requires forall i :: 0 <= i < k ==> Truthy(Field(data, fields[i]))
    ensures FirstMissing(data, fields) == Some(fields[k])
  {
    if k > 0 {
      FirstMissingIsFirst(data, fields[1..], k - 1);
    }
  }

  /** A reported field sits at a position where every field before it is filled. */
  lemma {:induction false} FirstMissingIndex(data: Dict.Dict<string, Json>, fields: seq<string>) returns (k: nat)
    requires FirstMissing(data, fields).Some?
    ensures k < |fields| && fields[k] == FirstMissing(data, fields).value
    ensures !Truthy(Field(data, fields[k])) && forall i :: 0 <= i < k ==> Truthy(Field(data, fields[i]))
  {
    if Truthy(Field(data, fields[0])) {
      var j := FirstMissingIndex(data, fields[1..]);
      k := j + 1;
    } else {
      k := 0;
    }
  }

  /**
   * `'@' not in email or '.' not in email`: substring tests on a string,
   * element tests on a list, key tests on a dict; on a number or a
   * boolean `in` raises `TypeError`.
   */
  function EmailRejected(email: Json): Result<bool, string> {
    match email
    case JStr(s) => Ok('@' !in s || '.' !in s)
    case JArr(items) => Ok(JStr("@") !in items || JStr(".") !in items)
    case JObj(fields) => Ok("@" !in Dict.Keys(fields) || "." !in Dict.Keys(fields))
    case _ => Err("argument of type '" + TypeName(email) + "' is not iterable")
  }

  /** `contact_data`. */
  function Record(data: Dict.Dict<string, Json>, timestamp: string): Firestore.ContactMessage {
    Firestore.ContactMessage(Field(data, "name"), Field(data, "email"), Field(data, "subject"),
                             Field(data, "message"), timestamp, "new")
  }

  /**
   * `submit_contact`: `body` is what `request.get_json()` gave (or the
   * error it raised), `timestamp` the clock's ISO time, and `save` the
   * store (`save_contact_message`), giving an id or the error it raised.
   */
  function SubmitContact(body: Result<Json, string>, timestamp: string,
                         save: Firestore.ContactMessage -> Result<string, string>): Response
  {
    match body
    case Err(e) => ServerError(e)
    case Ok(JObj(data)) =>
      (match FirstMissing(data, REQUIRED_FIELDS)
       case Some(field) => BadRequest(MissingField(field))
       case None =>
         match EmailRejected(Field(data, "email"))
         case Err(e) => ServerError(e)
         case Ok(true) => BadRequest(INVALID_EMAIL)
         case Ok(false) =>
           match save(Record(data, timestamp))
           case Ok(id) => Created(id)
           case Err(e) => ServerError(e))
    case Ok(other) => ServerError("'" + TypeName(other) + "' object has no attribute 'get'")
  }

  /** A body that is not a JSON object always ends in a 500. */
  lemma NonObjectBodyFails(body: Result<Json, string>, timestamp: string,
                           save: Firestore.ContactMessage -> Result<string, string>)
    requires body.Err? || !body.value.JObj?
    ensures Status(SubmitContact(body, timestamp, save)) == 500
  {
  }

  /** The message names its field. */
  lemma MissingFieldInjective(a: string, b: string)
    requires MissingField(a) == MissingField(b)
    ensures a == b
  {
    assert a == MissingField(a)[10..|MissingField(a)| - 12];
    assert b == MissingField(b)[10..|MissingField(b)| - 12];
  }

  /** A 400 naming a field exactly when that field is the one reported missing. */
  lemma RejectsReportedField(data: Dict.Dict<string, Json>, timestamp: string,
                             save: Firestore.ContactMessage -> Result<string, string>, field: string)
    ensures SubmitContact(Ok(JObj(data)), timestamp, save) == BadRequest(MissingField(field)) <==>
      FirstMissing(data, REQUIRED_FIELDS) == Some(field)
  {
    var m := FirstMissing(data, REQUIRED_FIELDS);
    if m.Some? {
      if MissingField(m.value) == MissingField(field) {
        MissingFieldInjective(m.value, field);
      }
    } else {
      CompleteFormRejectsOnlyEmail(data, timestamp, save);
      MissingFieldIsNotInvalidEmail(field);
    }
  }

  /** Once every field is filled, the only 400 left is the e-mail one. */
  lemma CompleteFormRejectsOnlyEmail(data: Dict.Dict<string, Json>, timestamp: string,
                                     save: Firestore.ContactMessage -> Result<string, string>)
    requires FirstMissing(data, REQUIRED_FIELDS).None?
    ensures SubmitContact(Ok(JObj(data)), timestamp, save).BadRequest? ==>
      SubmitContact(Ok(JObj(data)), timestamp, save).error == INVALID_EMAIL
  {
  }

  /** The two 400 messages cannot be confused. */
  lemma MissingFieldIsNotInvalidEmail(field: string)
    ensures MissingField(field) != INVALID_EMAIL
  {
    assert MissingField(field)[0] != INVALID_EMAIL[0];
  }

  /** In the fixed order, the reported field is `REQUIRED_FIELDS[k]` exactly when it is the first empty one. */
  lemma ReportedIsFirstEmpty(data: Dict.Dict<string, Json>, k: nat)
    requires k < |REQUIRED_FIELDS|
    ensures FirstMissing(data, REQUIRED_FIELDS) == Some(REQUIRED_FIELDS[k]) <==>
      !Truthy(Field(data, REQUIRED_FIELDS[k])) && forall i :: 0 <= i < k ==> Truthy(Field(data, REQUIRED_FIELDS[i]))
  {
    if FirstMissing(data, REQUIRED_FIELDS) == Some(REQUIRED_FIELDS[k]) {
      var j := FirstMissingIndex(data, REQUIRED_FIELDS);
      assert REQUIRED_FIELDS[j] == REQUIRED_FIELDS[k];
      assert j == k;
    }
    if !Truthy(Field(data, REQUIRED_FIELDS[k])) && forall i :: 0 <= i < k ==> Truthy(Field(data, REQUIRED_FIELDS[i])) {
      FirstMissingIsFirst(data, REQUIRED_FIELDS, k);
    }
  }

  /**
   * Fields are checked in the order name, email, subject, message: the
   * answer is a 400 naming a field exactly when that field is the first
   * missing or empty one.
   */
  lemma MissingFieldRejected(data: Dict.Dict<string, Json>, timestamp: string,
                             save: Firestore.ContactMessage -> Result<string, string>, k: nat)
    requires k < |REQUIRED_FIELDS|
    ensures SubmitContact(Ok(JObj(data)), timestamp, save) == BadRequest(MissingField(REQUIRED_FIELDS[k])) <==>
      !Truthy(Field(data, REQUIRED_FIELDS[k])) && forall i :: 0 <= i < k ==> Truthy(Field(data, REQUIRED_FIELDS[i]))
  {
    RejectsReportedField(data, timestamp, save, REQUIRED_FIELDS[k]);
    ReportedIsFirstEmpty(data, k);
  }

  /** With every field filled and a string e-mail, a 400 exactly when it lacks '@' or '.'. */
  lemma EmailNeedsAtAndDot(data: Dict.Dict<string, Json>, timestamp: string,
                           save: Firestore.ContactMessage -> Result<string, string>, email: string)
    requires forall f :: f in REQUIRED_FIELDS ==> Truthy(Field(data, f))
    requires Field(data, "email") == JStr(email)
    ensures SubmitContact(Ok(JObj(data)), timestamp, save) == BadRequest(INVALID_EMAIL) <==> '@' !in email || '.' !in email
  {
  }

  /**
   * A 201 exactly when the form is complete, the e-mail passes and the
   * store accepted the record (the four values as sent, the timestamp and
   * status "new"), with the id the store gave.
   */
  lemma CreatedExactly(data: Dict.Dict<string, Json>, timestamp: string,
                       save: Firestore.ContactMessage -> Result<string, string>, id: string)
    ensures SubmitContact(Ok(JObj(data)), timestamp, save) == Created(id) <==>
      && FirstMissing(data, REQUIRED_FIELDS).None?
      && EmailRejected(Field(data, "email")) == Ok(false)
      && save(Firestore.ContactMessage(Field(data, "name"), Field(data, "email"), Field(data, "subject"),
                                       Field(data, "message"), timestamp, "new")) == Ok(id)
  {
  }

  /** Every answer is one of 201, 400 and 500, and a 201 only comes from a JSON object. */
  lemma StatusCodes(body: Result<Json, string>, timestamp: string,
                    save: Firestore.ContactMessage -> Result<string, string>)
    ensures Status(SubmitContact(body, timestamp, save)) in {201, 400, 500}
    ensures SubmitContact(body, timestamp, save).Created? ==> body.Ok? && body.value.JObj?
  {
  }
}
