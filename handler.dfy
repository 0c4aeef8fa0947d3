/**
  * `handleValidationError` of internal/handler/handler.go: turns a binding
  * failure into the field-to-message map of a 400 response.
  */
module Handler {

  /** One failed rule of the validator: the field, the rule's tag and its parameter. */
  datatype FieldError = FieldError(field: string, tag: string, param: string)

  /** What binding reports: the validator's field errors, or any other failure (malformed JSON, a type mismatch). */
  datatype BindError = ValidationErrors(errors: seq<FieldError>) | Malformed

  const BodyKey := "body"
  const BodyMessage := "invalid json format or type mismatch"
  const UnknownTagPrefix := "failed validation on tag "

  const KnownTags: set<string> := {"required", "gt", "notpast", "datetime", "email"}

  /**
    * The message for a failed rule: a fixed text for each known tag, the
    * bound for `gt`, and for a tag outside the known five the generic message
    * naming the tag, which no known tag gets.
    */
  function TagMessage(tag: string, param: string): (msg: string)
    ensures tag !in KnownTags <==> |msg| >= |UnknownTagPrefix| && msg[..|UnknownTagPrefix|] == UnknownTagPrefix
    ensures tag !in KnownTags ==> msg[|UnknownTagPrefix|..] == tag
    ensures tag == "required" ==> msg == "is required"
    ensures tag == "notpast" ==> msg == "cannot be in the past"
    ensures tag == "datetime" ==> msg == "invalid date format, use YYYY-MM-DD"
    ensures tag == "email" ==> msg == "invalid email format"
  {
    var msg :=
      if tag == "required" then "is required"
      else if tag == "gt" then "must be greater than " + param
      else if tag == "notpast" then "cannot be in the past"
      else if tag == "datetime" then "invalid date format, use YYYY-MM-DD"
      else if tag == "email" then "invalid email format"
      else UnknownTagPrefix + tag;
    assert tag in KnownTags && |msg| >= |UnknownTagPrefix| ==> msg[0] != UnknownTagPrefix[0];
    msg
  }

  /** The `gt` message carries the rule's bound. */
  lemma GreaterThanMessage(param: string)
    ensures TagMessage("gt", param) == "must be greater than " + param
  {
  }

  /** The map the loop builds: one entry per failing field, a later error on a field replacing an earlier one. */
  function FieldMessages(errs: seq<FieldError>): map<string, string>
    decreases |errs|
  {
    if errs == [] then map[]
    else
      var e := errs[|errs| - 1];
      FieldMessages(errs[..|errs| - 1])[e.field := TagMessage(e.tag, e.param)]
  }

  /** The keys are exactly the failing fields. */
  lemma {:induction false} FieldMessagesKeys(errs: seq<FieldError>)
    ensures FieldMessages(errs).Keys == set e | e in errs :: e.field
    decreases |errs|
  {
    if errs != [] {
      var init := errs[..|errs| - 1];
      FieldMessagesKeys(init);
      assert errs == init + [errs[|errs| - 1]];
    }
  }

  /** A field's message is the one for its last error. */
  lemma {:induction false} FieldMessagesLastWins(errs: seq<FieldError>, i: int)
    requires 0 <= i < |errs|
    requires forall j :: i < j < |errs| ==> errs[j].field != errs[i].field
    ensures errs[i].field in FieldMessages(errs)
    ensures FieldMessages(errs)[errs[i].field] == TagMessage(errs[i].tag, errs[i].param)
    decreases |errs|
  {
    if i < |errs| - 1 {
      var init := errs[..|errs| - 1];
      FieldMessagesLastWins(init, i);
    }
  }

  /**
    * `handleValidationError`: a non-validation failure gives the single
    * entry for the body; field errors give the map of their messages.
    */
  method HandleValidationError(err: BindError) returns (result: map<string, string>)
    ensures err.Malformed? ==> result == map[BodyKey := BodyMessage]
    ensures err.ValidationErrors? ==> result == FieldMessages(err.errors)
  {
    result := map[];
    if err.Malformed? {
      result := result[BodyKey := BodyMessage];
      return;
    }
    var errs := err.errors;
    var i := 0;
    while i < |errs|
      invariant 0 <= i <= |errs|
      invariant result == FieldMessages(errs[..i])
    {
      var e := errs[i];
      assert errs[..i + 1][..i] == errs[..i];
      var msg := TagMessage(e.tag, e.param);
      result := result[e.field := msg];
      i := i + 1;
    }
    assert errs[..i] == errs;
  }
}
