# Lead-form validation of the marketing-site backend

`server.js` is a small Express backend. It takes lead submissions from three web forms:
a model inquiry, a special-lease inquiry and a contact request. Each request body is
checked field by field. A body with errors gets a 400 answer that lists every error; a
valid one gets a 200 answer with a message fixed by the form. This project models that
pipeline and proves what the code promises about it.

- `wrappers.dfy` (`Wrappers`): the `Option` datatype.
- `js_strings.dfy` (`JsStrings`): the JavaScript string operations the validators use.
  These are the ECMAScript whitespace class (shared by `trim` and `\s`), `trim`, the
  global replacement `replace(/\s/g, '')`, and `.length` counted in UTF-16 code units.
- `json_values.dfy` (`JsonValues`): a parsed JSON body as JavaScript sees it, with
  truthiness, `typeof` and the property read `body.key`. When a key is duplicated, the
  last member wins, as it does after `JSON.parse`.
- `phone_pattern.dfy` (`PhonePattern`): the phone regular expression of `server.js:21`.
  It is modelled as a list of items (optional separator, optional parenthesis, digit
  group) with a greedy matcher and a parser that tries the prefixes `+7`, `8`, `7`, none
  in the regex's order. The accepted language is described independently: a
  well-formed `Shape` (prefix plus ten pieces) and its `Render`ing. The parser is proved
  sound and complete against it.
- `validators.dfy` (`Validators`): `validateName`, `validatePhone`, `validateModel`
  (`server.js:12-27`) and their properties.
- `submission.dfy` (`Submission`): the `validateRequest` middleware. It is written as a
  method that appends messages to a local sequence, proved against the specification
  function `ValidationErrors`. This file also holds the three `app.post` handlers,
  which share one method `Submit` and the function `Respond`.

Three facts about the code are easy to get wrong:

- The submission `{name: "A", phone: "9991234567", model: "Excavator"}` is refused with a
  400: the trimmed name has length 1, below the minimum of 2
  (`Submission.OneLetterNameRefused`).
- The special-lease route is registered as `/api/submit-SpeacialLease` (`server.js:100`).
  The correctly spelled `/api/submit-SpecialLease` reaches no handler
  (`Submission.CorrectSpellingUnrouted`).
- There is no rate limiting and no forwarding of leads to any other service: the handlers
  only log and answer.

## Model

| member | source | states |
|---|---|---|
| JsStrings.TrimCharacterization | server.js:14 | whatever core is surrounded by whitespace only, and starts and ends with a non-whitespace character (or is empty), is exactly what `trim` returns |
| JsStrings.IsWhitespace | server.js:14-22 | a definition with no contract of its own: the ECMAScript WhiteSpace and LineTerminator set, which `trim` (line 14) and `\s` (lines 21-22) share; its meaning is stated by `JsStrings.TrimCharacterization` and `JsStrings.RemoveWhitespaceMembers` |
| JsStrings.TrimSplit | server.js:14 | every string is leading whitespace, then its trimmed core, then trailing whitespace |
| JsStrings.TrimPadding | server.js:14 | surrounding whitespace never changes the result of `trim` |
| JsStrings.TrimEmptyIff | server.js:14 | `trim` yields the empty string exactly when the input is all whitespace |
| JsStrings.TrimCharsFromInput | server.js:14 | every character of the trimmed string occurs in the input |
| JsStrings.Trim | server.js:14 | the result is no longer than the input, and starts and ends with a non-whitespace character unless empty |
| JsStrings.TrimStartDrops | server.js:14 | what the leading half of `trim` removes is whitespace |
| JsStrings.TrimEndDrops | server.js:14 | what the trailing half of `trim` removes is whitespace |
| JsStrings.Utf16Length | server.js:15 | `.length` lies between the number of characters and twice it, and equals it exactly when every character is in the Basic Multilingual Plane |
| JsStrings.RemoveWhitespace | server.js:22 | `replace(/\s/g, '')` leaves no whitespace and never lengthens the string |
| JsStrings.RemoveWhitespaceMembers | server.js:22 | the removal keeps exactly the non-whitespace characters of the input |
| JsStrings.RemoveWhitespaceAppend | server.js:22 | the removal distributes over concatenation |
| JsStrings.RemoveWhitespaceOfBlank | server.js:22 | an all-whitespace string is removed entirely |
| JsStrings.RemoveWhitespaceIdentity | server.js:22 | a string without whitespace is left unchanged, so the removal is idempotent |
| JsonValues.TypeOf | server.js:13 | `typeof` answers "string" exactly for strings |
| JsonValues.Truthy | server.js:13-26 | a definition with no contract of its own: JavaScript truthiness, behind `!v` at lines 13 and 19 and `v && …` at line 26; its meaning is stated by `Validators.ValidateName`, `Validators.ValidatePhone` and `Validators.ValidateModel`, whose contracts show that a truthy string is a non-empty one |
| JsonValues.Get | server.js:34 | reading a property of a non-object, or an absent property, yields `undefined`; any other value read is a member of the object |
| JsonValues.LastMemberWins | server.js:34 | a later member overrides every earlier one with the same name |
| JsonValues.OtherMemberIgnored | server.js:34 | a member with another name does not affect the property read |
| PhonePattern.Take | server.js:21 | one item of the pattern takes a prefix of the input that fits it, and fails only when a digit group finds too few digits |
| PhonePattern.MatchItems | server.js:21 | a successful greedy match cuts the input into pieces that fit the items one by one |
| PhonePattern.MatchItemsComplete | server.js:21 | for a deterministic item list, the greedy match finds every cut into fitting pieces |
| PhonePattern.BodyPatternDeterministic | server.js:21 | after the prefix, no optional item of the pattern can start with a character that the items after it may start with, so greediness loses no match |
| PhonePattern.BodyPatternDigits | server.js:21 | the pattern after the prefix asks for exactly ten digits |
| PhonePattern.ParseWith | server.js:21 | a parse with a given prefix yields a well-formed shape with that prefix that renders back to the input |
| PhonePattern.ParseSound | server.js:21 | whatever the matcher accepts is the rendering of a well-formed shape |
| PhonePattern.ParseComplete | server.js:21 | every well-formed shape is parsed back to itself, prefix and pieces included |
| PhonePattern.NoDigitSplit | server.js:21 | a bare body that starts with `8` or `7` is never read as that prefix plus a body, because only nine digits would remain |
| PhonePattern.ParseWithDigits | server.js:21 | a parse with a prefix means exactly ten digits follow the prefix's own |
| PhonePattern.MatchesIff | server.js:21 | the matcher accepts a string exactly when it is the rendering of a well-formed shape |
| PhonePattern.Parse | server.js:21 | a definition with no contract of its own: the match of the whole pattern, trying the prefixes `+7`, `8`, `7` and none in the regex's order; its meaning is stated by `PhonePattern.ParseSound` and `PhonePattern.ParseComplete` |
| PhonePattern.Matches | server.js:21-22 | a definition with no contract of its own: `phoneRegex.test(...)`; its meaning is stated by `PhonePattern.MatchesIff`, `PhonePattern.MatchedDigitCount` and `PhonePattern.MatchedPhoneChars` |
| PhonePattern.MatchedDigitCount | server.js:21 | an accepted string has ten digits without a prefix and eleven with one |
| PhonePattern.MatchedPhoneChars | server.js:21 | an accepted string holds only digits, `+`, `-`, `(`, `)` and whitespace |
| PhonePattern.EmptyNotMatched | server.js:21 | the empty string is not accepted |
| Validators.ValidateName | server.js:12-16 | true exactly for a string whose trimmed UTF-16 length is between 2 and 50 |
| Validators.NonEmptyString | server.js:13-19 | a definition with no contract of its own: the guard `!v \|\| typeof v !== 'string'` of lines 13 and 19, negated; its meaning is stated by `Validators.ValidateName` and `Validators.ValidatePhone`, which accept only strings, and by `Validators.NonStringPhoneRejected` |
| Validators.NamePadding | server.js:14-15 | surrounding whitespace does not change the name verdict |
| Validators.NameLengthInCharacters | server.js:15 | for text in the Basic Multilingual Plane the length bound is a bound on characters |
| Validators.ShortNameRejected | server.js:15 | a name of fewer than two such characters is refused |
| Validators.BlankNameRejected | server.js:13-15 | an empty or all-whitespace name is refused |
| Validators.AstralCharacterIsTwoLong | server.js:15 | a single character outside the Basic Multilingual Plane already meets the minimum of 2 |
| Validators.ValidatePhone | server.js:18-23 | true exactly for a string whose whitespace-free form the pattern accepts |
| Validators.PhoneIgnoresWhitespace | server.js:22 | inserting whitespace anywhere does not change the phone verdict |
| Validators.PhoneDependsOnlyOnStripped | server.js:22 | two strings with the same whitespace-free form get the same verdict |
| Validators.DigitCountIgnoresWhitespace | server.js:22 | removing whitespace keeps the digit count |
| Validators.AcceptedPhoneShape | server.js:21-22 | an accepted phone, without whitespace, holds only digits, `+`, `-`, `(`, `)`, and has 10 or 11 digits |
| Validators.AcceptedPhoneChars | server.js:21-22 | the whitespace-free form of an accepted phone holds only digits, `+`, `-`, `(`, `)` |
| Validators.ForeignCharacterRejected | server.js:21-22 | a phone containing a letter or any other character outside that set is refused |
| Validators.DigitCountOutOfRangeRejected | server.js:21-22 | a phone with fewer than 10 or more than 11 digits is refused |
| Validators.NonStringPhoneRejected | server.js:19 | a missing, non-string or empty phone is refused |
| Validators.StripShape | server.js:21-22 | removing whitespace from a rendered shape gives the rendering of another well-formed shape |
| Validators.RenderedPhoneAccepted | server.js:21-22 | every rendering of a well-formed shape is accepted, whitespace separators included |
| Validators.BarePhoneAccepted | server.js:21-22 | `9991234567` is accepted |
| Validators.PlusSevenPhoneAccepted | server.js:21-22 | `+79991234567` is accepted |
| Validators.EightPhoneAccepted | server.js:21-22 | `89991234567` is accepted |
| Validators.FormattedPhoneAccepted | server.js:21-22 | `+7 (999) 123-45-67` is accepted |
| Validators.UnbalancedParenthesisAccepted | server.js:21-22 | `8(9991234567` is accepted: the two parentheses are independent optional items |
| Validators.ValidateModel | server.js:25-27 | truthy exactly for a string that is not blank after `trim` |
| Validators.ModelNeedsVisibleCharacter | server.js:25-27 | a model passes exactly when it is a string with at least one non-whitespace character |
| Submission.FailedFields | server.js:34-44 | a field is listed exactly when it is in the check order, requested and failing, and the list is no longer than the order |
| Submission.ValidationErrors | server.js:32-44 | a definition with no contract of its own: the `errors` array built by the three guarded pushes; its meaning is stated by `Submission.ErrorListed`, `Submission.ErrorsInCheckOrder`, `Submission.ErrorsDistinct`, `Submission.NoErrorsIff` and `Submission.FieldOrderIrrelevant` |
| Submission.Messages | server.js:35-43 | one message per failed field, in the same order |
| Submission.ValidateRequest | server.js:30-56 | the method's accumulated list equals the specification's error list; it rejects with the 400 validation body exactly when that list is non-empty, and calls `next` exactly when every requested field passes |
| Submission.ErrorListed | server.js:34-44 | a field's message is in the error list exactly when the field is requested and its validator fails |
| Submission.ErrorsInCheckOrder | server.js:34-44 | the list has at most three messages, in the order name, phone, model |
| Submission.ErrorsDistinct | server.js:34-44 | no message appears twice |
| Submission.FailedFieldsIncreasing | server.js:34-44 | failures are listed in check order, whatever the list of requested fields |
| Submission.FieldOrderIrrelevant | server.js:34-42 | two field lists that request the same fields, in any order and with any repetition, give the same errors |
| Submission.NoErrorsIff | server.js:46-54 | the error list is empty exactly when every requested field passes |
| Submission.MessageInjective | server.js:35-43 | the three messages are distinct |
| Submission.Route | server.js:72-129 | a path is routed only to the intent whose path it is |
| Submission.RouteOfPath | server.js:72-129 | each handler's path routes to it |
| Submission.CorrectSpellingUnrouted | server.js:100 | `/api/submit-SpecialLease`, spelled correctly, reaches no handler |
| Submission.FieldsChecked | server.js:72-129 | the model form checks name, phone and model; the lease and contact forms check name and phone only |
| Submission.Submit | server.js:72-156 | each handler's answer is the 400 of the validation step or the 200 with its fixed message, and it is 200 exactly when every field the form requests passes |
| Submission.Respond | server.js:46-147 | a definition with no contract of its own: each handler's answer, the 400 of lines 46-54 or the 200 of lines 86-89, 115-118 and 144-147; its meaning is stated by `Submission.RespondOutcome` |
| Submission.RespondOutcome | server.js:46-147 | the status is 200 or 400; 200 exactly when every requested field passes, with the form's success body of lines 86-89, 115-118 or 144-147; 400 with the validation body of lines 46-54 otherwise |
| Submission.NoModelErrorWithoutModelField | server.js:100-129 | the lease and contact forms never report the model error |
| Submission.LeaseAndContactAgree | server.js:100-156 | the lease and contact forms succeed on the same bodies and refuse them with the same answer |
| Submission.ModelFormStrictest | server.js:72-129 | a body the model form accepts is accepted by every form |
| Submission.AcceptedFieldsAreStrings | server.js:74-79 | a handler reached after validation finds string name and phone (and model for the model form), so its `trim` calls are defined |
| Submission.MissingFieldReported | server.js:34-44 | a requested field that is absent is reported and the answer is the 400 |
| Submission.OnlyNameErrorAnswer | server.js:34-52 | on the lease or contact form, a bad name with a good phone gets a 400 listing only the name message |
| Submission.BlankNameAnswer | server.js:34-52 | the body `{"name": "", "phone": "9991234567"}` on the lease form gets a 400 listing only the name message |
| Submission.OneLetterNameRefused | server.js:12-16 | a body whose name is `"A"` is refused on every form, with the name message among the errors |

## Left out

- Express setup, `cors()`, `express.json()` and `app.listen` (`server.js:2-9`, `66-69`): framework plumbing. The JSON body arrives already parsed as a `JsonValue`.
- The `/api/products` route (`server.js:59-64`): it serves whatever the module `./products` exports, and that module is not part of this model.
- Submission.Route: Express routing is reduced to an exact match of the path. Method matching, trailing slashes, case-insensitive matching and 404 answers are not modelled.
- JsonValues.Get: the body is taken to be what `express.json()` delivers, an object or an array (Express 4 puts in `{}` when a request has no JSON body). A `null` or `undefined` body, which makes `req.body.name` at `server.js:34` throw a TypeError and Express answer 500, is read as an object without members, so the model answers 400 there.
- `console.log`, `console.error` and `new Date().toLocaleString()` (`server.js:76-81`, `104-108`, `133-137`): output and clock side effects that do not affect the answer.
- The `catch` branches that answer 500 (`server.js:91-97`, `120-126`, `149-155`). `Submission.AcceptedFieldsAreStrings` shows the `trim` calls are made on strings, so no exception is modelled and these branches are unreachable in the model.
- The rate limiter and the webhook forwarder: the code has neither.
- Lone UTF-16 surrogates cannot occur in a Dafny `char`, so strings holding them are not modelled. `Utf16Length` counts every character outside the Basic Multilingual Plane as two code units.
- Validators.ValidateModel: returns a boolean, while `validateModel` returns the falsy operand itself (for example `undefined`, `null`, `""` or `false`) or `true`. Only its truthiness is used, by `!validateModel(...)` at `server.js:42`, and only truthiness is modelled.
- JSON numbers are modelled as exact reals, not as doubles. `JSON.parse` rounds them, so `1e400` becomes `Infinity` and `1e-400` becomes `0`, which is falsy while the model's `Number(1e-400)` is truthy. No verdict depends on this, because every validator refuses a value whose `typeof` is not "string" before anything else.
- The regular-expression engine in general: only the one pattern of `server.js:21` is modelled, by its own matcher.
