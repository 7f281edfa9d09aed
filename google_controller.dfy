/**
 * The request checks the Google-user handlers run, in order, before they call the service:
 * each failing check answers 400 with its own message and stops the handler.
 */
module GoogleController {
  import opened Decimal
  import opened JsonValue
  import opened GoogleValidation

  const RequiredFields: string := "Google ID, email y name son requeridos"
  const InvalidEmail: string := "Email no tiene un formato válido"
  const InvalidUserType: string := "Tipo de usuario no válido"
  const DiscountsNotArray: string := "Discounts debe ser un array"
  const IdRequired: string := "ID es requerido"

  /**
   * A body member by name, as JSON.parse leaves it: when the text repeats a name the last
   * member wins; a missing member reads as undefined.
   */
  function Get(body: seq<(string, Json)>, key: string): (v: Json)
    ensures (forall i :: 0 <= i < |body| ==> body[i].0 != key) ==> v == JUndefined
    ensures (exists i :: 0 <= i < |body| && body[i].0 == key) ==>
      exists i :: 0 <= i < |body| && body[i] == (key, v) && forall j :: i < j < |body| ==> body[j].0 != key
    decreases |body|
  {
    if body == [] then JUndefined
    else if body[|body| - 1].0 == key then body[|body| - 1].1
    else
      var prefix := body[..|body| - 1];
      assert forall i :: 0 <= i < |prefix| ==> prefix[i] == body[i];
      Get(prefix, key)
  }

  /** A member put in front of the body is overridden by any later member of the same name and hides no other name. */
  lemma {:induction false} GetPrepend(body: seq<(string, Json)>, member: (string, Json), key: string)
    requires member.0 != key
    ensures Get([member] + body, key) == Get(body, key)
    decreases |body|
  {
    if body != [] {
      var body' := [member] + body;
      assert body'[|body'| - 1] == body[|body| - 1];
      assert body'[..|body'| - 1] == [member] + body[..|body| - 1];
      GetPrepend(body[..|body| - 1], member, key);
    }
  }

  /** JavaScript's String(v), which `RegExp.prototype.test` applies to its argument. */
  function ToStr(v: Json): (r: string)
    ensures v.JString? ==> r == v.s
    ensures r == "" ==> v.JString? || v.JArray?
    decreases v, 1
  {
    match v
    case JUndefined => "undefined"
    case JNull => "null"
    case JBool(b) => if b then "true" else "false"
    case JNumber(n) => IntToString(n)
    case JString(s) => s
    case JArray(elems) => JoinElems(v, 0)
    case JObject(_) => "[object Object]"
  }

  /** `elems.join(',')` from index i on, with null and undefined written as empty text. */
  function JoinElems(v: Json, i: nat): string
    requires v.JArray?
    decreases v, 0, |v.elems| - i
  {
    if i >= |v.elems| then ""
    else
      var e := v.elems[i];
      var text := if e.JNull? || e.JUndefined? then "" else ToStr(e);
      if i + 1 == |v.elems| then text else text + "," + JoinElems(v, i + 1)
  }

  /** `Object.values(UserTypes).includes(v)`: the two enum strings. */
  predicate IsUserType(v: Json) {
    v == JString("BUYER") || v == JString("ADMIN")
  }

  /** The four checks of the create handler, each read as a condition on the body. */
  predicate HasRequired(body: seq<(string, Json)>) {
    Truthy(Get(body, "googleId")) && Truthy(Get(body, "email")) && Truthy(Get(body, "name"))
  }

  predicate EmailWellFormed(body: seq<(string, Json)>) {
    EmailRules(ToStr(Get(body, "email")))
  }

  predicate UserTypeAllowed(body: seq<(string, Json)>) {
    !Truthy(Get(body, "typeUser")) || IsUserType(Get(body, "typeUser"))
  }

  predicate DiscountsAllowed(body: seq<(string, Json)>) {
    !Truthy(Get(body, "discounts")) || Get(body, "discounts").JArray?
  }

  /**
   * createGoogleUser's checks: the required fields, then the email format, then a supplied
   * typeUser, then supplied discounts; Next means the service is called.
   */
  function CreateChecks(body: seq<(string, Json)>): (v: Verdict)
    ensures v == Next <==>
      HasRequired(body) && EmailWellFormed(body) && UserTypeAllowed(body) && DiscountsAllowed(body)
    ensures !HasRequired(body) ==> v == BadRequest(RequiredFields)
    ensures HasRequired(body) && !EmailWellFormed(body) ==> v == BadRequest(InvalidEmail)
    ensures HasRequired(body) && EmailWellFormed(body) && !UserTypeAllowed(body) ==> v == BadRequest(InvalidUserType)
    ensures HasRequired(body) && EmailWellFormed(body) && UserTypeAllowed(body) && !DiscountsAllowed(body) ==>
      v == BadRequest(DiscountsNotArray)
  {
    var googleId, email, name := Get(body, "googleId"), Get(body, "email"), Get(body, "name");
    var typeUser, discounts := Get(body, "typeUser"), Get(body, "discounts");
    EmailRegexIffRules(ToStr(email));
    if !Truthy(googleId) || !Truthy(email) || !Truthy(name) then BadRequest(RequiredFields)
    else if !EmailRegex(ToStr(email)) then BadRequest(InvalidEmail)
    else if Truthy(typeUser) && !IsUserType(typeUser) then BadRequest(InvalidUserType)
    else if Truthy(discounts) && !discounts.JArray? then BadRequest(DiscountsNotArray)
    else Next
  }

  /** findOrCreateGoogleUser's checks, written out again in that handler. */
  function FindOrCreateChecks(body: seq<(string, Json)>): (v: Verdict)
    ensures v == Next <==>
      HasRequired(body) && EmailWellFormed(body) && UserTypeAllowed(body) && DiscountsAllowed(body)
    ensures !HasRequired(body) ==> v == BadRequest(RequiredFields)
  {
    var googleId, email, name := Get(body, "googleId"), Get(body, "email"), Get(body, "name");
    var typeUser, discounts := Get(body, "typeUser"), Get(body, "discounts");
    EmailRegexIffRules(ToStr(email));
    if !Truthy(googleId) || !Truthy(email) || !Truthy(name) then BadRequest(RequiredFields)
    else if !EmailRegex(ToStr(email)) then BadRequest(InvalidEmail)
    else if Truthy(typeUser) && !IsUserType(typeUser) then BadRequest(InvalidUserType)
    else if Truthy(discounts) && !discounts.JArray? then BadRequest(DiscountsNotArray)
    else Next
  }

  /** findOrCreate applies the same checks, in the same order and with the same messages, as create. */
  lemma FindOrCreateSameChecks(body: seq<(string, Json)>)
    ensures FindOrCreateChecks(body) == CreateChecks(body)
  {
  }

  /**
   * updateGoogleUser's checks: a missing id, then the email format only when an email is
   * supplied, then supplied discounts. There is no typeUser check.
   */
  function UpdateChecks(id: string, body: seq<(string, Json)>): (v: Verdict)
    ensures v == Next <==>
      id != "" && (Truthy(Get(body, "email")) ==> EmailWellFormed(body)) && DiscountsAllowed(body)
    ensures id == "" ==> v == BadRequest(IdRequired)
  {
    var email, discounts := Get(body, "email"), Get(body, "discounts");
    EmailRegexIffRules(ToStr(email));
    if id == "" then BadRequest(IdRequired)
    else if Truthy(email) && !EmailRegex(ToStr(email)) then BadRequest(InvalidEmail)
    else if Truthy(discounts) && !discounts.JArray? then BadRequest(DiscountsNotArray)
    else Next
  }

  /**
   * Unlike create, update lets any typeUser through: a body that passes the update checks still
   * passes them with an arbitrary typeUser put in front.
   */
  lemma UpdateIgnoresTypeUser(id: string, body: seq<(string, Json)>, typeUser: Json)
    ensures UpdateChecks(id, [("typeUser", typeUser)] + body) == UpdateChecks(id, body)
  {
    GetPrepend(body, ("typeUser", typeUser), "email");
    GetPrepend(body, ("typeUser", typeUser), "discounts");
  }
}
