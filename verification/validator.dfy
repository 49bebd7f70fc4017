/** The fluent rule-chain builder.  A builder holds an ordered list of
    single-value rules; `string()` and `number()` append a rule, `required()`
    inserts one in front, and `validate` runs the rules in order and reports
    the first failure.  The builder's mutable `rules` array is modelled as the
    value `Chain`, and each builder method as a function from the chain before
    the call to the chain after it. */
module Validator {
  import opened JsValues

  const StringMessage: string := "Deve ser uma string"
  const NumberMessage: string := "Deve ser um número"
  const RequiredMessage: string := "Campo obrigatório"

  /** The three kinds of rule the builder can add. */
  datatype Rule = Required | StringType | Numeric

  /** What a rule, and `validate`, return: `true` or a message. */
  datatype Outcome = Valid | Invalid(message: string)

  /** The builder's `rules` array. */
  type Chain = seq<Rule>

  /** The fixed message each rule fails with. */
  function MessageOf(rule: Rule): string {
    match rule
    case Required => RequiredMessage
    case StringType => StringMessage
    case Numeric => NumberMessage
  }

  /** A value the `required` rule treats as missing. */
  predicate IsMissing(v: JsValue) {
    v == Undefined || v == Null || v == Str("")
  }

  /** One rule applied to one value. */
  function ApplyRule(rule: Rule, v: JsValue): (r: Outcome)
    ensures r == Valid || r == Invalid(MessageOf(rule))
    ensures rule == StringType ==> (r.Valid? <==> IsString(v))
    ensures rule == Numeric ==> (r.Valid? <==> IsNumeric(v))
    ensures rule == Required ==> (r.Valid? <==> !IsMissing(v))
  {
    match rule
    case StringType => if v.Str? then Valid else Invalid(StringMessage)
    case Numeric => if IsNumeric(v) then Valid else Invalid(NumberMessage)
    case Required =>
      if v != Undefined && v != Null && v != Str("") then Valid else Invalid(RequiredMessage)
  }

  /** `validate(value)`: the outcome of the first rule, in order, that does
      not pass, or `Valid` when every rule passes. */
  function Validate(chain: Chain, v: JsValue): (r: Outcome)
    ensures r.Valid? <==> forall i :: 0 <= i < |chain| ==> ApplyRule(chain[i], v).Valid?
    ensures r.Invalid? ==>
      exists i :: 0 <= i < |chain| && ApplyRule(chain[i], v) == r
        && forall j :: 0 <= j < i ==> ApplyRule(chain[j], v).Valid?
  {
    if chain == [] then Valid
    else
      var first := ApplyRule(chain[0], v);
      if first.Valid? then
        var rest := Validate(chain[1..], v);
        assert forall i :: 1 <= i < |chain| ==> chain[i] == chain[1..][i - 1];
        if rest.Invalid? then
          var i :| 0 <= i < |chain[1..]| && ApplyRule(chain[1..][i], v) == rest
            && forall j :: 0 <= j < i ==> ApplyRule(chain[1..][j], v).Valid?;
          assert ApplyRule(chain[i + 1], v) == rest;
          rest
        else
          rest
      else first
  }

  /** The first failure is unique: if rule `i` fails and every rule before it
      passes, `validate` returns exactly rule `i`'s outcome. */
  lemma {:induction false} ValidateIsFirstFailure(chain: Chain, v: JsValue, i: nat)
    requires i < |chain| && ApplyRule(chain[i], v).Invalid?
    requires forall j :: 0 <= j < i ==> ApplyRule(chain[j], v).Valid?
    ensures Validate(chain, v) == ApplyRule(chain[i], v)
  {
    if i > 0 {
      assert ApplyRule(chain[0], v).Valid?;
      assert forall j :: 0 <= j < i - 1 ==> chain[1..][j] == chain[j + 1];
      ValidateIsFirstFailure(chain[1..], v, i - 1);
    }
  }

  /** An empty chain accepts every value. */
  lemma ValidateEmpty(v: JsValue)
    ensures Validate([], v) == Valid
  {
  }

  /** A failing `validate` always reports the fixed message of one of the
      chain's rules. */
  lemma ValidateMessageFromChain(chain: Chain, v: JsValue)
    ensures Validate(chain, v).Invalid? ==>
      exists i :: 0 <= i < |chain| && Validate(chain, v).message == MessageOf(chain[i])
  {
    if Validate(chain, v).Invalid? {
      var i :| 0 <= i < |chain| && ApplyRule(chain[i], v) == Validate(chain, v);
      assert Validate(chain, v).message == MessageOf(chain[i]);
    }
  }

  // ---------------------------------------------------------------------
  // The builder methods
  // ---------------------------------------------------------------------

  /** `string()`: appends a string-type rule at the end. */
  function AddString(chain: Chain): (r: Chain)
    ensures |r| == |chain| + 1 && r[..|chain|] == chain && r[|chain|] == StringType
  {
    chain + [StringType]
  }

  /** `number()`: appends a numeric rule at the end. */
  function AddNumber(chain: Chain): (r: Chain)
    ensures |r| == |chain| + 1 && r[..|chain|] == chain && r[|chain|] == Numeric
  {
    chain + [Numeric]
  }

  /** `required()`: inserts the required rule at index 0, shifting the others
      one place right. */
  function AddRequired(chain: Chain): (r: Chain)
    ensures |r| == |chain| + 1 && r[0] == Required && r[1..] == chain
  {
    [Required] + chain
  }

  /** Appending a rule changes the outcome only for values the chain already
      accepted, and then the new rule decides. */
  lemma {:induction false} ValidateAppend(chain: Chain, rule: Rule, v: JsValue)
    ensures Validate(chain + [rule], v) ==
      (if Validate(chain, v).Valid? then ApplyRule(rule, v) else Validate(chain, v))
  {
    if chain != [] {
      assert (chain + [rule])[1..] == chain[1..] + [rule];
      ValidateAppend(chain[1..], rule, v);
    }
  }

  /** After `required()`, a missing value fails with the required message
      whatever the rest of the chain says, and any other value is judged by
      the rest of the chain alone. */
  lemma ValidateAfterRequired(chain: Chain, v: JsValue)
    ensures IsMissing(v) ==> Validate(AddRequired(chain), v) == Invalid(RequiredMessage)
    ensures !IsMissing(v) ==> Validate(AddRequired(chain), v) == Validate(chain, v)
  {
    assert AddRequired(chain)[1..] == chain;
  }

  /** One call on the builder. */
  datatype Call = CallString | CallNumber | CallRequired

  /** The rule a call adds. */
  function RuleOf(call: Call): Rule {
    match call
    case CallString => StringType
    case CallNumber => Numeric
    case CallRequired => Required
  }

  /** The builder method a call names. */
  function Apply(chain: Chain, call: Call): Chain {
    match call
    case CallString => AddString(chain)
    case CallNumber => AddNumber(chain)
    case CallRequired => AddRequired(chain)
  }

  /** A sequence of chained builder calls, `b.f().g()...`, starting from
      the rules `chain`. */
  function Build(chain: Chain, calls: seq<Call>): Chain
    decreases |calls|
  {
    if calls == [] then chain else Build(Apply(chain, calls[0]), calls[1..])
  }

  /** The factory object `v`: a fresh builder with one call made. */
  function Factory(call: Call): (r: Chain)
    ensures r == [RuleOf(call)]
  {
    Apply([], call)
  }

  /** How many `required()` calls a sequence holds. */
  function CountRequired(calls: seq<Call>): nat {
    if calls == [] then 0
    else (if calls[0] == CallRequired then 1 else 0) + CountRequired(calls[1..])
  }

  /** The rules the appending calls add, in call order. */
  function Appended(calls: seq<Call>): Chain {
    if calls == [] then []
    else if calls[0] == CallRequired then Appended(calls[1..])
    else [RuleOf(calls[0])] + Appended(calls[1..])
  }

  /** `n` copies of the required rule. */
  function RequiredRules(n: nat): (r: Chain)
    ensures |r| == n && forall i :: 0 <= i < n ==> r[i] == Required
  {
    seq(n, _ => Required)
  }

  /** The shape of any built chain: one required rule per `required()` call
      in front, then the starting rules, then the appended rules in the order
      of their calls. */
  lemma {:induction false} BuildShape(chain: Chain, calls: seq<Call>)
    ensures Build(chain, calls) ==
      RequiredRules(CountRequired(calls)) + chain + Appended(calls)
    decreases |calls|
  {
    if calls != [] {
      var rest := calls[1..];
      BuildShape(Apply(chain, calls[0]), rest);
      if calls[0] == CallRequired {
        assert RequiredRules(CountRequired(rest)) + [Required]
          == RequiredRules(CountRequired(calls));
      } else {
        assert Appended(calls) == [RuleOf(calls[0])] + Appended(rest);
      }
    }
  }

  /** Every builder call grows the chain by exactly one rule. */
  lemma BuildLength(chain: Chain, calls: seq<Call>)
    ensures |Build(chain, calls)| == |chain| + |calls|
  {
    BuildShape(chain, calls);
    CountPlusAppended(calls);
  }

  /** Every call is either a `required()` call or an appending one. */
  lemma {:induction false} CountPlusAppended(calls: seq<Call>)
    ensures CountRequired(calls) + |Appended(calls)| == |calls|
  {
    if calls != [] {
      CountPlusAppended(calls[1..]);
    }
  }

  /** A sequence holding a `required()` call counts at least one. */
  lemma {:induction false} CountRequiredPositive(calls: seq<Call>)
    requires CallRequired in calls
    ensures CountRequired(calls) > 0
  {
    if calls[0] != CallRequired {
      CountRequiredPositive(calls[1..]);
    }
  }

  /** Once `required()` has been called, at any point in the chain of calls,
      the required rule sits at index 0, so a missing value always fails with
      the required message. */
  lemma RequiredWins(chain: Chain, calls: seq<Call>, v: JsValue)
    requires CallRequired in calls
    ensures |Build(chain, calls)| > 0 && Build(chain, calls)[0] == Required
    ensures IsMissing(v) ==> Validate(Build(chain, calls), v) == Invalid(RequiredMessage)
  {
    BuildShape(chain, calls);
    CountRequiredPositive(calls);
    BuildLength(chain, calls);
    ValidateIsFirstFailureAtZero(Build(chain, calls), v);
  }

  /** A chain that starts with the required rule rejects a missing value
      with the required message. */
  lemma ValidateIsFirstFailureAtZero(chain: Chain, v: JsValue)
    requires |chain| > 0 && chain[0] == Required
    ensures IsMissing(v) ==> Validate(chain, v) == Invalid(RequiredMessage)
  {
    if IsMissing(v) {
      ValidateIsFirstFailure(chain, v, 0);
    }
  }
}
