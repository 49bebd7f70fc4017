# ValidationProxyJS core in Dafny

This project models the validation engine of ValidationProxyJS. The engine has three parts:

- **The rule-chain builder** (`ValidatorBuilder`, module `Validator`, file `validator.dfy`).
  A builder holds an ordered list of rules. `string()` and `number()` append a rule. `required()` inserts its rule at
  index 0. `validate(value)` returns the first rule result that is not `true`, or `true` when every rule passes. The
  builder's mutable `rules` array is modelled as the value `Chain = seq<Rule>`. Each builder method becomes a function
  from the chain before the call to the chain after it. A chained call sequence `b.f().g()` is `Build(chain, calls)`.
  `validate` is the pure function `Validate(chain, value)`. It never changes the chain, because nothing in the model
  can change it.
- **The validated record** (`validatedProxy`, module `ValidatedProxy`, file `helpers.dfy`).
  The record has two buckets: `data` maps a field to its last valid value, and `errors` maps a field to the message
  of its last invalid value. The Proxy `set` trap becomes the transition `Write(record, schema, field, value)`, which
  returns the new record and the trap's boolean. The `get` trap becomes `Get`. The construction loop becomes the method
  `Create`.
- **The application schema** `userSchema` (function `UserSchema.Fixture`, file `schema.dfy`). It serves as a fixture for the
  end-to-end scenario about `name` and `age`.

JavaScript values are modelled in `js_value.dfy` (module `JsValues`) as `Undefined | Null | Bool | Str | Num`.
The numeric rule asks whether `Number(value)` is NaN. For a string, `Number` follows the StringNumericLiteral
grammar of ECMA-262 (ToNumber applied to the String type): a string outside the grammar gives NaN, and a string
inside it gives some number. "Not NaN" is therefore exactly "matches the grammar", so `IsNumericString` implements
that grammar:

- surrounding white space and line terminators are trimmed, and a blank string is accepted;
- signed decimals with an optional fraction and exponent are accepted;
- `Infinity` is accepted;
- `0x`, `0o` and `0b` integers are accepted.

One consequence follows from the code as written, and `UserSchema.BlankAgeIsAccepted` proves it. An age made only of
spaces is not the empty string, so it passes `required()`. `Number` turns it into 0, so it also passes `number()`.
The record therefore stores it in `data` as a valid age.

Two source comments disagree with the code, and the model follows the code in both cases:

- the comment at `src/helpers.js:32` says that a write to an unknown field returns true, but the code returns `false`;
- the comment at `src/helpers.js:25-26` says that the `set` trap returns false for an invalid value, but line 41
  returns `true` after recording the error.

## Model

| member | source | states |
|---|---|---|
| JsValues.DigitsAreNumeric | src/validator.js:17 | `Number` of a non-empty string of decimal digits is not NaN |
| JsValues.IsNumeric | src/validator.js:17 | decides whether `Number(value)` is not NaN: `undefined` gives NaN, `null` does not, and a string gives NaN exactly when its text without surrounding white space is outside the numeric-string grammar |
| JsValues.BlankIsNumeric | src/validator.js:17 | `Number` of a string made only of white space is not NaN |
| JsValues.LetterIsNotNumeric | src/validator.js:17 | `Number` of a string that starts with a lower-case letter is NaN |
| Validator.ApplyRule | src/validator.js:5-32 | each rule returns `true` or its own fixed message; the string rule passes iff the value's type is string, the number rule iff `Number(value)` is not NaN, the required rule iff the value is not `undefined`, `null` or `''` |
| Validator.Validate | src/validator.js:35-41 | `validate` returns `true` iff every rule of the chain passes; otherwise it returns the outcome of a failing rule such that every earlier rule passes |
| Validator.ValidateIsFirstFailure | src/validator.js:35-41 | when rule `i` is the first failing rule, `validate` returns exactly rule `i`'s message, so the rules run in order and stop at the first failure |
| Validator.ValidateEmpty | src/validator.js:35-41 | an empty chain accepts every value |
| Validator.ValidateMessageFromChain | src/validator.js:35-41 | a failure message is always the fixed message of one of the chain's rules |
| Validator.AddString | src/validator.js:5-13 | `string()` adds exactly one rule, a string rule at the end, and leaves the earlier rules in place |
| Validator.AddNumber | src/validator.js:15-23 | `number()` adds exactly one rule, a number rule at the end, and leaves the earlier rules in place |
| Validator.AddRequired | src/validator.js:25-33 | `required()` puts the required rule at index 0 and shifts every earlier rule one place right |
| Validator.ValidateAppend | src/validator.js:10-20 | an appended rule is consulted only when the existing chain passes the value, and then the appended rule decides |
| Validator.ValidateAfterRequired | src/validator.js:27-41 | after `required()`, a missing value fails with `'Campo obrigatório'`, whatever the rest of the chain holds; any other value is judged by the rest of the chain alone |
| Validator.Factory | src/validator.js:46-50 | each factory entry of `v` gives a fresh builder that holds only the one rule of its call |
| Validator.BuildShape | src/validator.js:5-33 | any chained call sequence builds one required rule per `required()` call at the front, then the starting rules, then the appended rules in call order |
| Validator.BuildLength | src/validator.js:10-30 | every builder call lengthens the chain by exactly one rule |
| Validator.RequiredWins | src/validator.js:25-41 | once `required()` appears anywhere in a call sequence, the required rule is at index 0 of the result, so a missing value always fails with `'Campo obrigatório'` |
| ValidatedProxy.Write | src/helpers.js:27-49 | a write to a field outside the schema returns false and changes nothing; otherwise it returns true. A passing value is stored in `data` and the field is absent from `errors`. A failing value's message is stored in `errors` and the field is absent from `data`. Every other field keeps its entries in both buckets |
| ValidatedProxy.WritePreservesInvariant | src/helpers.js:37-48 | a write keeps every field out of at least one bucket and keeps both buckets inside the schema's keys |
| ValidatedProxy.WriteAllPreservesInvariant | src/helpers.js:27-48 | after any sequence of writes, no field is in both buckets and no field outside the schema is in either |
| ValidatedProxy.WriteIdempotent | src/helpers.js:35-48 | writing the same value to the same field twice gives the same record and result as writing it once |
| ValidatedProxy.WriteLastWins | src/helpers.js:37-47 | a second write to a field leaves no trace of the first write |
| ValidatedProxy.WritesCommute | src/helpers.js:37-47 | writes to two different fields give the same record in either order |
| ValidatedProxy.RepairClearsError | src/helpers.js:37-47 | after a failing write, a passing write to the same field removes its error and stores the new value |
| ValidatedProxy.Get | src/helpers.js:52-54 | reading `data` or `errors` returns that whole bucket; any other name reads nothing |
| ValidatedProxy.WriteSettlesKey | src/helpers.js:60-63 | writing one more schema key's initial value places that key in the bucket its chain's verdict selects and changes no other key |
| ValidatedProxy.SettledShape | src/helpers.js:60-63 | after construction, each written key is in exactly one bucket, and `data` holds the initial values themselves |
| ValidatedProxy.Create | src/helpers.js:17-63 | construction writes every schema key once, with its initial value or `undefined`, in any order. The result is the same for every order. Every schema key ends in exactly one bucket, and initial keys outside the schema are ignored |
| UserSchema.Fixture | src/schema.js:4-7 | `userSchema` has exactly the keys `name` and `age`, with chains [required, string] and [required, number], although `required()` is called last |
| UserSchema.EmptyNameIsRequired | src/schema.js:5 | an empty name is recorded as `'Campo obrigatório'`, not as the string-type message, and it leaves `data` |
| UserSchema.NamePasses | src/schema.js:5 | any non-empty name string is stored in `data` and leaves `errors` |
| UserSchema.MissingAgeIsRequired | src/schema.js:6 | an `undefined` age is recorded as `'Campo obrigatório'` |
| UserSchema.AgeCoercion | src/schema.js:6 | an age string of digits is stored as valid data, and an age string that starts with a lower-case letter is recorded as `'Deve ser um número'` |
| UserSchema.NumberAloneRejectsUndefined | src/validator.js:15-22 | a chain holding only the number rule rejects `undefined` with `'Deve ser um número'` |
| UserSchema.BlankAgeIsAccepted | src/schema.js:6 | an age made only of spaces passes both rules and is stored in `data` |
| UserSchema.CreateWithEmptyName | src/helpers.js:60-63 | constructing from `{ name: '', age: '30' }` gives `data = { age: '30' }` and `errors = { name: 'Campo obrigatório' }` |
| UserSchema.CreateUserForm | src/helpers.js:17-63 | calling `validatedProxy(userSchema, { name: '', age: '30' })` returns a record with `data = { age: '30' }` and `errors = { name: 'Campo obrigatório' }` |
| UserSchema.FormScenario | src/helpers.js:27-63 | the scenario: construct from `{ name: '', age: '30' }`, then write `age = 'thirty'`, then write `name = 'Ann'`. The buckets pass from `{age}`/`{name}` to `{}`/`{name, age}` and finally to `{name: 'Ann'}`/`{age: 'Deve ser um número'}` |

## Left out

- `src/view.js`, `src/controller.js` and `src/factory.js` are not part of this model. They hold DOM lookups, event listeners and object wiring, and `handleForm` only calls `validatedProxy` with the form's values.
- The `console.log(proxy)` call at the end of construction is left out because it is output only.
- The Proxy and Reflect machinery is left out. Only the `set` trap's boolean is modelled. In strict-mode module code, a `false` from the trap surfaces as a TypeError in the assigning code, and the model does not follow that.
- Schema lookup counts only the schema's own keys. A prototype-chain hit such as `schema['toString']`, and a falsy schema entry, are not modelled. Schema values are always builders. The initial values are a map too, so `initialData[key]` never reaches `Object.prototype`, and a `null` initial object, which throws a TypeError because the default `= {}` applies only to `undefined`, is not modelled.
- ValidatedProxy.Get: reading any property other than `data` and `errors` returns `Absent`. In JavaScript the read would reach `Object.prototype` (for example `toString`), which is not modelled.
- ValidatedProxy.Get: the buckets are returned by value. In the source the `get` trap returns the live `data` and `errors` objects, so a caller that holds one sees every later write, and a caller can write through it (`proxy.data.x = 1`) without the `set` trap, storing an unvalidated value under any key. Holding or mutating a returned bucket is not modelled, and the invariants `Disjoint` and `WithinSchema` cover writes through the `set` trap only. The insertion order of a bucket's keys is not modelled either.
- Values are limited to the primitives `undefined`, `null`, booleans, strings and numbers. Objects are left out because `Number` on them runs user-defined conversions. Symbols are left out because `Number` throws on them. BigInt is left out too.
- A number is reduced to NaN, an infinity, or a finite real. The exact floating-point value `Number` produces is never observed by the rules, so it is not modelled.
- ValidatedProxy.Create: the `for...in` enumeration order is not modelled. The method picks keys in an arbitrary order, and its contract shows that the result does not depend on the order.
- Symbol-keyed properties are left out. Field names are strings.
- Strings are Dafny strings, sequences of Unicode scalar values. JavaScript strings are sequences of UTF-16 code units, so a string holding a lone surrogate cannot be represented. No rule's verdict depends on this.
- Validator.AddString, Validator.AddNumber, Validator.AddRequired, Validator.Build: builder identity and sharing are not modelled. In the source each builder method changes the builder's `rules` array in place and returns the same builder, so two schema fields holding one builder see every later call on it. Here a chain is a value, and each call yields a new chain. The model is exact only when each builder is used once, in a straight line of chained calls, as `userSchema` does.
