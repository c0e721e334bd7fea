/**
 The request pipeline of server.js around the validators: the `validateRequest` middleware
 (lines 30-56), which checks the fields an endpoint lists and either answers 400 with every
 error message or hands the request on, and the three `app.post` handlers (lines 72-156),
 which fix the field list and, once the middleware has let a request through, answer 200
 with their own message.
 */
module Submission {
  import opened Wrappers
  import opened JsonValues
  import opened Validators

  // ---- fields and their error messages ----

  /** The form fields a request can be checked for. */
  datatype Field = Name | Phone | Model

  /** The property of the request body that holds the field, and its name in field lists. */
  function Key(f: Field): string {
    match f
    case Name => "name"
    case Phone => "phone"
    case Model => "model"
  }

  /** The message pushed when the field is listed but invalid (lines 35, 39 and 43). */
  function Message(f: Field): string {
    match f
    case Name => "Имя должно быть от 2 до 50 символов"
    case Phone => "Неверный формат телефона"
    case Model => "Модель не может быть пустой"
  }

  /** The `message` of the 400 answer (line 49). */
  const ValidationFailed := "Ошибка валидации"

  /** The validator the middleware applies to the field's property of the body. */
  predicate Passes(f: Field, body: JsonValue) {
    match f
    case Name => ValidateName(Get(body, "name"))
    case Phone => ValidatePhone(Get(body, "phone"))
    case Model => ValidateModel(Get(body, "model"))
  }

  /** `fields.includes(...)` for the field's name. */
  predicate Requested(fields: seq<string>, f: Field) {
    Key(f) in fields
  }

  /** The order in which the middleware checks the fields. */
  const CheckOrder: seq<Field> := [Name, Phone, Model]

  /** A field's place in `CheckOrder`. */
  function Rank(f: Field): nat {
    match f
    case Name => 0
    case Phone => 1
    case Model => 2
  }

  predicate Increasing(fs: seq<Field>) {
    forall i, j | 0 <= i < j < |fs| :: Rank(fs[i]) < Rank(fs[j])
  }

  // ---- the error list as a specification ----

  /** The fields of `order` that are listed in `fields` and fail their validator, in the
      order of `order`. */
  function FailedFields(order: seq<Field>, fields: seq<string>, body: JsonValue): (r: seq<Field>)
    ensures |r| <= |order|
    ensures forall f :: f in r <==> f in order && Fails(fields, f, body)
  {
    if order == [] then []
    else
      Check(fields, order[0], body) + FailedFields(order[1..], fields, body)
  }

  function Messages(fs: seq<Field>): (ms: seq<string>)
    ensures |ms| == |fs|
    ensures forall i | 0 <= i < |fs| :: ms[i] == Message(fs[i])
  {
    if fs == [] then [] else [Message(fs[0])] + Messages(fs[1..])
  }

  /** The `errors` array the middleware builds for the listed fields and the body. */
  function ValidationErrors(fields: seq<string>, body: JsonValue): seq<string> {
    Messages(FailedFields(CheckOrder, fields, body))
  }

  // ---- responses ----

  /** The JSON object a handler sends; `errors` is absent from every answer but the 400. */
  datatype ResponseBody = ResponseBody(success: bool, message: string, errors: Option<seq<string>>)

  datatype Response = Response(status: int, body: ResponseBody)

  /** What the middleware does with a request: call `next()`, or answer it itself. */
  datatype Gate = Next | Reject(response: Response)

  function BadRequest(errors: seq<string>): Response {
    Response(400, ResponseBody(false, ValidationFailed, Some(errors)))
  }

  /** A listed field whose validator fails. */
  predicate Fails(fields: seq<string>, f: Field, body: JsonValue) {
    Requested(fields, f) && !Passes(f, body)
  }

  function Check(fields: seq<string>, f: Field, body: JsonValue): seq<Field> {
    if Fails(fields, f, body) then [f] else []
  }

  lemma FailedFieldsUnfold(fields: seq<string>, body: JsonValue)
    ensures FailedFields(CheckOrder, fields, body) ==
            Check(fields, Name, body) + Check(fields, Phone, body) + Check(fields, Model, body)
  {
    var a, b, c := Check(fields, Name, body), Check(fields, Phone, body), Check(fields, Model, body);
    assert CheckOrder[1..] == [Phone, Model];
    assert [Phone, Model][1..] == [Model];
    assert [Model][1..] == [];
    assert FailedFields([Model], fields, body) == c + [];
    assert FailedFields([Phone, Model], fields, body) == b + (c + []);
    assert a + (b + (c + [])) == (a + b) + c;
  }

  lemma ValidationErrorsUnfold(fields: seq<string>, body: JsonValue)
    ensures ValidationErrors(fields, body) ==
            Messages(Check(fields, Name, body)) + Messages(Check(fields, Phone, body)) +
            Messages(Check(fields, Model, body))
  {
    var a, b, c := Check(fields, Name, body), Check(fields, Phone, body), Check(fields, Model, body);
    FailedFieldsUnfold(fields, body);
    MessagesAppend(a + b, c);
    MessagesAppend(a, b);
  }

  lemma MessagesOfCheck(fields: seq<string>, f: Field, body: JsonValue)
    ensures Messages(Check(fields, f, body)) == if Fails(fields, f, body) then [Message(f)] else []
  {
    assert [f][1..] == [];
  }

  lemma MessagesAppend(xs: seq<Field>, ys: seq<Field>)
    ensures Messages(xs + ys) == Messages(xs) + Messages(ys)
  {
  }

  /** `validateRequest(fields)` (lines 30-56) applied to a request body: the error list is
      built one check at a time, and the middleware answers 400 with it exactly when it is
      not empty. */
  method ValidateRequest(fields: seq<string>, body: JsonValue) returns (gate: Gate)
    ensures var errors := ValidationErrors(fields, body);
            gate == if errors == [] then Next else Reject(BadRequest(errors))
    ensures gate.Next? <==> forall f :: Requested(fields, f) ==> Passes(f, body)
  {
    MessagesOfCheck(fields, Name, body);
    MessagesOfCheck(fields, Phone, body);
    MessagesOfCheck(fields, Model, body);
    var errors: seq<string> := [];
    if Fails(fields, Name, body) {
      errors := errors + [Message(Name)];
    }
    assert errors == Messages(Check(fields, Name, body));
    if Fails(fields, Phone, body) {
      errors := errors + [Message(Phone)];
    }
    assert errors == Messages(Check(fields, Name, body)) + Messages(Check(fields, Phone, body));
    if Fails(fields, Model, body) {
      errors := errors + [Message(Model)];
    }
    ValidationErrorsUnfold(fields, body);
    assert errors == ValidationErrors(fields, body);
    if |errors| > 0 {
      gate := Reject(BadRequest(errors));
    } else {
      gate := Next;
    }
    NoErrorsIff(fields, body);
  }

  // ---- endpoints ----

  /** The three lead forms the server accepts. */
  datatype Intent = ModelInquiry | SpecialLease | Contact

  /** The route of each handler (lines 72, 100 and 129), spelled as in the source. */
  function Path(intent: Intent): string {
    match intent
    case ModelInquiry => "/api/submit-model"
    case SpecialLease => "/api/submit-SpeacialLease"
    case Contact => "/api/submit-contacts"
  }

  /** The handler a POST to `path` reaches, if any. */
  function Route(path: string): (r: Option<Intent>)
    ensures r.Some? ==> Path(r.value) == path
  {
    if path == Path(ModelInquiry) then Some(ModelInquiry)
    else if path == Path(SpecialLease) then Some(SpecialLease)
    else if path == Path(Contact) then Some(Contact)
    else None
  }

  /** The field list each handler passes to `validateRequest`. */
  function Fields(intent: Intent): seq<string> {
    if intent == ModelInquiry then ["name", "phone", "model"] else ["name", "phone"]
  }

  /** The `message` of each handler's 200 answer (lines 88, 117 and 146). */
  function SuccessMessage(intent: Intent): string {
    match intent
    case ModelInquiry => "Заявка успешно принята"
    case SpecialLease => "Заявка на лизинг успешно принята"
    case Contact => "Контактные данные успешно получены"
  }

  function Accepted(intent: Intent): Response {
    Response(200, ResponseBody(true, SuccessMessage(intent), None))
  }

  /** The answer to a POST of `body` to the intent's route: the middleware's 400, or the
      handler's 200. */
  function Respond(intent: Intent, body: JsonValue): Response {
    var errors := ValidationErrors(Fields(intent), body);
    if errors == [] then Accepted(intent) else BadRequest(errors)
  }

  /** The middleware and then the handler, as Express chains them for one request. */
  method Submit(intent: Intent, body: JsonValue) returns (response: Response)
    ensures response == Respond(intent, body)
    ensures response.status == 200 <==> forall f :: Requested(Fields(intent), f) ==> Passes(f, body)
  {
    var gate := ValidateRequest(Fields(intent), body);
    match gate
    case Reject(r) =>
      response := r;
    case Next =>
      response := Accepted(intent);
  }

  // ---- properties of the error list ----

  /** Each message is in the list exactly when its field is listed and its validator
      fails. */
  lemma ErrorListed(fields: seq<string>, body: JsonValue, f: Field)
    ensures Message(f) in ValidationErrors(fields, body) <==> Requested(fields, f) && !Passes(f, body)
  {
    var fs := FailedFields(CheckOrder, fields, body);
    var ms := ValidationErrors(fields, body);
    if Message(f) in ms {
      var i :| 0 <= i < |ms| && ms[i] == Message(f);
      MessageInjective(fs[i], f);
      assert fs[i] in fs;
    }
    if Requested(fields, f) && !Passes(f, body) {
      assert f in CheckOrder;
      var i :| 0 <= i < |fs| && fs[i] == f;
      assert ms[i] == Message(f);
    }
  }

  lemma MessageInjective(f: Field, g: Field)
    requires Message(f) == Message(g)
    ensures f == g
  {
  }

  lemma {:induction false} FailedFieldsIncreasing(order: seq<Field>, fields: seq<string>, body: JsonValue)
    requires Increasing(order)
    ensures Increasing(FailedFields(order, fields, body))
  {
    if order != [] {
      var rest := FailedFields(order[1..], fields, body);
      assert Increasing(order[1..]) by {
        forall i, j | 0 <= i < j < |order| - 1 ensures Rank(order[1..][i]) < Rank(order[1..][j]) {
          assert order[1..][i] == order[i + 1] && order[1..][j] == order[j + 1];
        }
      }
      FailedFieldsIncreasing(order[1..], fields, body);
      forall f | f in rest ensures Rank(order[0]) < Rank(f) {
        var k :| 0 < k < |order| && order[k] == f;
      }
    }
  }

  /** The place in check order of the field a message belongs to. */
  function MessageRank(m: string): (n: nat)
    ensures forall f :: m == Message(f) ==> n == Rank(f)
  {
    if m == Message(Name) then 0 else if m == Message(Phone) then 1 else 2
  }

  /** Messages come in the fixed order name, phone, model: at most three of them. */
  lemma ErrorsInCheckOrder(fields: seq<string>, body: JsonValue)
    ensures var errors := ValidationErrors(fields, body);
            |errors| <= 3 &&
            forall i, j | 0 <= i < j < |errors| :: MessageRank(errors[i]) < MessageRank(errors[j])
  {
    var fs := FailedFields(CheckOrder, fields, body);
    FailedFieldsIncreasing(CheckOrder, fields, body);
  }

  /** No message is reported twice. */
  lemma ErrorsDistinct(fields: seq<string>, body: JsonValue)
    ensures var errors := ValidationErrors(fields, body);
            forall i, j | 0 <= i < j < |errors| :: errors[i] != errors[j]
  {
    var fs := FailedFields(CheckOrder, fields, body);
    FailedFieldsIncreasing(CheckOrder, fields, body);
    var errors := ValidationErrors(fields, body);
    forall i, j | 0 <= i < j < |errors| ensures errors[i] != errors[j] {
      if errors[i] == errors[j] {
        MessageInjective(fs[i], fs[j]);
      }
    }
  }

  /** The list is empty exactly when every listed field is valid. */
  lemma NoErrorsIff(fields: seq<string>, body: JsonValue)
    ensures ValidationErrors(fields, body) == [] <==> forall f :: Requested(fields, f) ==> Passes(f, body)
  {
    var fs := FailedFields(CheckOrder, fields, body);
    assert ValidationErrors(fields, body) == [] <==> fs == [];
    if fs != [] {
      assert fs[0] in fs;
      assert Requested(fields, fs[0]) && !Passes(fs[0], body);
    }
    if fs == [] {
      forall f | Requested(fields, f) ensures Passes(f, body) {
        assert CheckOrder[Rank(f)] == f;
        assert f !in fs;
      }
    }
  }

  /** Only which of the three names are listed matters, not their order or repetition. */
  lemma FieldOrderIrrelevant(fields: seq<string>, others: seq<string>, body: JsonValue)
    requires forall f :: Requested(fields, f) <==> Requested(others, f)
    ensures ValidationErrors(fields, body) == ValidationErrors(others, body)
  {
    SameFailures(CheckOrder, fields, others, body);
  }

  lemma {:induction false} SameFailures(order: seq<Field>, fields: seq<string>, others: seq<string>, body: JsonValue)
    requires forall f :: Requested(fields, f) <==> Requested(others, f)
    ensures FailedFields(order, fields, body) == FailedFields(order, others, body)
  {
    if order != [] {
      SameFailures(order[1..], fields, others, body);
      assert Check(fields, order[0], body) == Check(others, order[0], body);
    }
  }

  // ---- properties of the endpoints ----

  /** Every POST to a handler's route is answered 200 or 400; 200 exactly when every field
      the handler lists is valid, with the handler's own message and no error list. */
  lemma RespondOutcome(intent: Intent, body: JsonValue)
    ensures Respond(intent, body).status == 200 || Respond(intent, body).status == 400
    ensures Respond(intent, body).status == 200 <==>
            forall f :: Requested(Fields(intent), f) ==> Passes(f, body)
    ensures Respond(intent, body).status == 200 ==>
            Respond(intent, body).body == ResponseBody(true, SuccessMessage(intent), None)
    ensures Respond(intent, body).status == 400 ==>
            Respond(intent, body).body ==
              ResponseBody(false, ValidationFailed, Some(ValidationErrors(Fields(intent), body)))
  {
    NoErrorsIff(Fields(intent), body);
  }

  /** The model form checks all three fields, the other two forms the name and phone only. */
  lemma FieldsChecked(intent: Intent, f: Field)
    ensures Requested(Fields(intent), f) <==> f != Model || intent == ModelInquiry
  {
    if f == Model && intent != ModelInquiry {
      assert forall k | k in Fields(intent) :: k[0] != 'm';
    }
  }

  /** The lease and contact forms never report the model error, whatever the body holds. */
  lemma NoModelErrorWithoutModelField(intent: Intent, body: JsonValue)
    requires intent != ModelInquiry
    ensures Message(Model) !in ValidationErrors(Fields(intent), body)
  {
    FieldsChecked(intent, Model);
    ErrorListed(Fields(intent), body, Model);
  }

  /** The lease and contact forms judge every body alike; only their success message
      differs. */
  lemma LeaseAndContactAgree(body: JsonValue)
    ensures Respond(SpecialLease, body).status == Respond(Contact, body).status
    ensures Respond(SpecialLease, body).status == 400 ==> Respond(SpecialLease, body) == Respond(Contact, body)
  {
  }

  /** The model form is the strictest: a body it accepts is accepted by the other two. */
  lemma ModelFormStrictest(intent: Intent, body: JsonValue)
    ensures Respond(ModelInquiry, body).status == 200 ==> Respond(intent, body).status == 200
  {
    RespondOutcome(ModelInquiry, body);
    RespondOutcome(intent, body);
    if Respond(ModelInquiry, body).status == 200 {
      forall f | Requested(Fields(intent), f) ensures Passes(f, body) {
        FieldsChecked(intent, f);
        FieldsChecked(ModelInquiry, f);
      }
    }
  }

  /** A body the middleware lets through holds strings in the fields the handler reads and
      trims, so the handler's `.trim()` calls cannot throw. */
  lemma AcceptedFieldsAreStrings(intent: Intent, body: JsonValue)
    ensures Respond(intent, body).status == 200 ==> Get(body, "name").Str? && Get(body, "phone").Str?
    ensures Respond(intent, body).status == 200 && intent == ModelInquiry ==> Get(body, "model").Str?
  {
    RespondOutcome(intent, body);
    if Respond(intent, body).status == 200 {
      FieldsChecked(intent, Name);
      FieldsChecked(intent, Phone);
      FieldsChecked(intent, Model);
      assert Passes(Name, body) && Passes(Phone, body);
      if intent == ModelInquiry {
        assert Passes(Model, body);
      }
    }
  }

  /** Each handler is reached through its own route, and only through it. */
  lemma RouteOfPath(intent: Intent)
    ensures Route(Path(intent)) == Some(intent)
  {
  }

  /** The lease route is spelled `SpeacialLease`; the correctly spelled path reaches no
      handler. */
  lemma CorrectSpellingUnrouted(path: string)
    requires path == "/api/submit-SpecialLease"
    ensures Route(path) == None
  {
    assert path[17] != Path(SpecialLease)[17];
  }

  /** A field missing from the body is reported whenever the endpoint lists it. */
  lemma MissingFieldReported(intent: Intent, body: JsonValue, f: Field)
    requires Requested(Fields(intent), f) && Get(body, Key(f)) == Undefined
    ensures Respond(intent, body) == BadRequest(ValidationErrors(Fields(intent), body))
    ensures Message(f) in ValidationErrors(Fields(intent), body)
  {
    ErrorListed(Fields(intent), body, f);
  }

  /** A lease or contact request with an invalid name and a valid phone is answered 400 with
      the name error alone. */
  lemma OnlyNameErrorAnswer(intent: Intent, body: JsonValue)
    requires intent != ModelInquiry
    requires !Passes(Name, body) && Passes(Phone, body)
    ensures Respond(intent, body) == BadRequest([Message(Name)])
  {
    var fields := Fields(intent);
    FieldsChecked(intent, Name);
    FieldsChecked(intent, Phone);
    FieldsChecked(intent, Model);
    ValidationErrorsUnfold(fields, body);
    MessagesOfCheck(fields, Name, body);
    MessagesOfCheck(fields, Phone, body);
    MessagesOfCheck(fields, Model, body);
  }

  lemma SampleBodyFields(body: JsonValue)
    requires body == Object([("name", Str("")), ("phone", Str("9991234567"))])
    ensures Get(body, "name") == Str("") && Get(body, "phone") == Str("9991234567")
  {
  }

  /** `{"name": "", "phone": "9991234567"}` sent to the lease form is answered 400 with the
      name error alone. */
  lemma BlankNameAnswer(body: JsonValue)
    requires body == Object([("name", Str("")), ("phone", Str("9991234567"))])
    ensures Respond(SpecialLease, body) == BadRequest([Message(Name)])
  {
    SampleBodyFields(body);
    BarePhoneAccepted("9991234567");
    OnlyNameErrorAnswer(SpecialLease, body);
  }

  /** A one-letter name is too short: every form refuses a body whose name is `"A"`, whatever
      else it holds. */
  lemma OneLetterNameRefused(intent: Intent, body: JsonValue)
    requires Get(body, "name") == Str("A")
    ensures Respond(intent, body) == BadRequest(ValidationErrors(Fields(intent), body))
    ensures Message(Name) in ValidationErrors(Fields(intent), body)
  {
    var name := "A";
    assert |name| == 1 && name[0] == 'A';
    ShortNameRejected(name);
    FieldsChecked(intent, Name);
    ErrorListed(Fields(intent), body, Name);
  }
}
