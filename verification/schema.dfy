/** The one concrete schema of the application, `userSchema`, and what the
    validated record does with it. */
module UserSchema {
  import opened JsValues
  import opened Validator
  import opened ValidatedProxy

  /** `v.string().required()` */
  function NameChain(): Chain {
    AddRequired(Factory(CallString))
  }

  /** `v.number().required()` */
  function AgeChain(): Chain {
    AddRequired(Factory(CallNumber))
  }

  /** `userSchema`: exactly the fields `name` and `age`, and in both chains
      the required rule comes first although `required()` was called last. */
  function Fixture(): (schema: Schema)
    ensures schema.Keys == {"name", "age"}
    ensures schema["name"] == [Required, StringType]
    ensures schema["age"] == [Required, Numeric]
  {
    map["name" := NameChain(), "age" := AgeChain()]
  }

  /** An empty name is reported as missing, not as a type error. */
  lemma EmptyNameIsRequired(rec: Record)
    ensures var w := Write(rec, Fixture(), "name", Str(""));
      w.accepted && w.record.errors == rec.errors["name" := RequiredMessage]
      && "name" !in w.record.data
  {
    ValidateAfterRequired(Factory(CallString), Str(""));
  }

  /** A non-empty name passes. */
  lemma NamePasses(rec: Record, name: string)
    requires name != ""
    ensures var w := Write(rec, Fixture(), "name", Str(name));
      w.accepted && w.record.data == rec.data["name" := Str(name)]
      && "name" !in w.record.errors
  {
    ValidateAfterRequired(Factory(CallString), Str(name));
  }

  /** A missing age is reported as missing, not as a numeric error. */
  lemma MissingAgeIsRequired(rec: Record)
    ensures var w := Write(rec, Fixture(), "age", Undefined);
      w.accepted && w.record.errors == rec.errors["age" := RequiredMessage]
  {
    ValidateAfterRequired(Factory(CallNumber), Undefined);
  }

  /** The age chain accepts every non-empty string of digits. */
  lemma DigitAgePasses(digits: string)
    requires |digits| > 0 && AllDigits(digits)
    ensures Validate(Fixture()["age"], Str(digits)) == Valid
  {
    DigitsAreNumeric(digits);
    ValidateAfterRequired(Factory(CallNumber), Str(digits));
  }

  /** The age chain rejects a string that starts with a lower-case letter
      with the numeric message. */
  lemma WordAgeFails(word: string)
    requires |word| > 0 && 'a' <= word[0] <= 'z'
    ensures Validate(Fixture()["age"], Str(word)) == Invalid(NumberMessage)
  {
    LetterIsNotNumeric(word);
    ValidateAfterRequired(Factory(CallNumber), Str(word));
  }

  /** An age made of digits passes, and one starting with a letter fails
      with the numeric message. */
  lemma AgeCoercion(rec: Record, digits: string, word: string)
    requires |digits| > 0 && AllDigits(digits)
    requires |word| > 0 && 'a' <= word[0] <= 'z'
    ensures Write(rec, Fixture(), "age", Str(digits)).record.data
         == rec.data["age" := Str(digits)]
    ensures Write(rec, Fixture(), "age", Str(word)).record.errors
         == rec.errors["age" := NumberMessage]
  {
    DigitAgePasses(digits);
    WritePassing(rec, Fixture(), "age", Str(digits));
    WordAgeFails(word);
    WriteFailing(rec, Fixture(), "age", Str(word), NumberMessage);
  }

  /** Without `required()`, a numeric chain rejects `undefined` with its own
      message. */
  lemma NumberAloneRejectsUndefined()
    ensures Validate(Factory(CallNumber), Undefined) == Invalid(NumberMessage)
  {
  }

  /** An age of blanks is not missing (it is not the empty string) and
      converts to 0, so it is stored as valid data. */
  lemma BlankAgeIsAccepted(rec: Record, blanks: string)
    requires |blanks| > 0 && forall i :: 0 <= i < |blanks| ==> blanks[i] == ' '
    ensures Write(rec, Fixture(), "age", Str(blanks)).record.data
         == rec.data["age" := Str(blanks)]
  {
    BlankIsNumeric(blanks);
    assert blanks[0] == ' ';
    ValidateAfterRequired(Factory(CallNumber), Str(blanks));
  }

  /** The form as first submitted: an empty name and age "30". */
  function EmptyNameForm(): map<string, JsValue> {
    map["name" := Str(""), "age" := Str("30")]
  }

  /** Settling the empty name first records it as missing. */
  lemma SettleEmptyName()
    ensures Settled(Fixture(), EmptyNameForm(), {"name"})
         == Record(map[], map["name" := RequiredMessage])
  {
    assert InitialValue(EmptyNameForm(), "name") == Str("");
    assert Settled(Fixture(), EmptyNameForm(), {}) == Empty;
    WriteSettlesKey(Fixture(), EmptyNameForm(), {}, "name");
    EmptyNameIsRequired(Empty);
    assert {} + {"name"} == {"name"};
  }

  /** Writing age "30" after the name's error stores the age in `data`. */
  lemma WriteAgeThirty()
    ensures Write(Record(map[], map["name" := RequiredMessage]), Fixture(), "age", Str("30")).record
         == Record(map["age" := Str("30")], map["name" := RequiredMessage])
  {
    DigitAgePasses("30");
    WritePassing(Record(map[], map["name" := RequiredMessage]), Fixture(), "age", Str("30"));
    assert map["name" := RequiredMessage] - {"age"} == map["name" := RequiredMessage];
  }

  /** Settling the age after the name gives the constructed record. */
  lemma SettleAge()
    ensures Settled(Fixture(), EmptyNameForm(), {"name"} + {"age"})
         == Record(map["age" := Str("30")], map["name" := RequiredMessage])
  {
    SettleEmptyName();
    assert InitialValue(EmptyNameForm(), "age") == Str("30");
    WriteSettlesKey(Fixture(), EmptyNameForm(), {"name"}, "age");
    WriteAgeThirty();
  }

  /** Construction with an empty name and age "30": the name lands in
      `errors` as missing and the age in `data`.  `Create` returns
      `Settled(schema, initial, schema.Keys)`, so this is the record
      `Create(Fixture(), EmptyNameForm())` yields, as `CreateUserForm` shows. */
  lemma CreateWithEmptyName()
    ensures Settled(Fixture(), EmptyNameForm(), Fixture().Keys)
         == Record(map["age" := Str("30")], map["name" := RequiredMessage])
  {
    SettleAge();
    assert Fixture().Keys == {"name"} + {"age"};
  }

  /** `validatedProxy(userSchema, { name: '', age: '30' })`: the name is
      recorded as missing and the age is stored. */
  method CreateUserForm() returns (rec: Record)
    ensures rec.data == map["age" := Str("30")]
    ensures rec.errors == map["name" := RequiredMessage]
  {
    rec := Create(Fixture(), EmptyNameForm());
    CreateWithEmptyName();
  }

  /** Changing the age to "thirty" moves it from `data` to `errors`. */
  lemma ChangeAgeToWord()
    ensures Write(Record(map["age" := Str("30")], map["name" := RequiredMessage]),
                  Fixture(), "age", Str("thirty")).record
         == Record(map[], map["name" := RequiredMessage, "age" := NumberMessage])
  {
    WordAgeFails("thirty");
  }

  /** Changing the name to "Ann" moves it from `errors` to `data`. */
  lemma ChangeNameToAnn()
    ensures Write(Record(map[], map["name" := RequiredMessage, "age" := NumberMessage]),
                  Fixture(), "name", Str("Ann")).record
         == Record(map["name" := Str("Ann")], map["age" := NumberMessage])
  {
    ValidateAfterRequired(Factory(CallString), Str("Ann"));
    assert Validate(Fixture()["name"], Str("Ann")) == Valid;
    assert map["name" := RequiredMessage, "age" := NumberMessage] - {"name"}
        == map["age" := NumberMessage];
  }

  /** The form submitted with an empty name and age "30", then age changed to
      "thirty", then name to "Ann": the error moves from the name to the age
      and the name's value appears in `data`.  The first record is the one
      `Create` yields, since `Create` returns `Settled(schema, initial,
      schema.Keys)`. */
  lemma FormScenario()
    ensures var created := Settled(Fixture(), EmptyNameForm(), Fixture().Keys);
      && created == Record(map["age" := Str("30")], map["name" := RequiredMessage])
      && var second := Write(created, Fixture(), "age", Str("thirty")).record;
         && second == Record(map[], map["name" := RequiredMessage, "age" := NumberMessage])
         && Write(second, Fixture(), "name", Str("Ann")).record
            == Record(map["name" := Str("Ann")], map["age" := NumberMessage])
  {
    CreateWithEmptyName();
    ChangeAgeToWord();
    ChangeNameToAnn();
  }
}
