/** FavoriteValidator: checks an untyped input against the favourite-character field
    rules, collecting every error message, and normalises an accepted input by trimming
    its strings and dropping its blank optional fields. */
module Validator {
  import opened JsValues

  const MaxNameLength := 100
  const MaxTextLength := 50

  /** The fields whose length is limited, in the order they are checked. */
  const TextFields: seq<string> := ["hair_color", "skin_color", "eye_color", "birth_year", "gender"]

  /** The fields sanitize copies when they are not blank, in the order it copies them. */
  const OptionalFields: seq<string> :=
    ["height", "mass", "hair_color", "skin_color", "eye_color", "birth_year", "gender"]

  /** The rule an input breaks; validate reports each one as the message below. */
  datatype Violation =
    | NotAnObject
    | IdNotText
    | NameNotText
    | NameBlank
    | NameTooLong
    | HeightNotText
    | MassNotText
    | TextTooLong(field: string)

  function Message(v: Violation): string {
    match v
    case NotAnObject => "Los datos deben ser un objeto JSON válido"
    case IdNotText => "El campo \"id\" es obligatorio y debe ser texto"
    case NameNotText => "El campo \"name\" es obligatorio y debe ser texto"
    case NameBlank => "El campo \"name\" no puede estar vacío"
    case NameTooLong => "El campo \"name\" no puede exceder 100 caracteres"
    case HeightNotText => "El campo \"height\" debe ser texto"
    case MassNotText => "El campo \"mass\" debe ser texto"
    case TextTooLong(field) => "El campo \"" + field + "\" no puede exceder 50 caracteres"
  }

  /** The messages of a list of violations, in the same order. */
  function Messages(vs: seq<Violation>): (r: seq<string>)
    ensures |r| == |vs|
    decreases |vs|
  {
    if vs == [] then [] else Messages(vs[..|vs| - 1]) + [Message(vs[|vs| - 1])]
  }

  /** Neither falsy nor of a typeof other than "object": a parsed object or array. */
  predicate IsObjectLike(data: JsValue) {
    Truthy(data) && TypeOf(data) == ObjectType
  }

  // ---------------------------------------------------------------------------
  // validate

  function IdViolations(id: JsValue): seq<Violation> {
    if !Truthy(id) || TypeOf(id) != StringType then [IdNotText] else []
  }

  /** The name rules form one else-if chain, so they add at most one violation. */
  function NameViolations(name: JsValue): seq<Violation> {
    if !Truthy(name) || TypeOf(name) != StringType then [NameNotText]
    else if |Trim(name.s)| == 0 then [NameBlank]
    else if JsLength(name.s) > MaxNameLength then [NameTooLong]
    else []
  }

  /** height and mass are only type-checked, and only when they are not blank. */
  function TypeViolations(v: JsValue, violation: Violation): seq<Violation> {
    if !Blank(v) && TypeOf(v) != StringType then [violation] else []
  }

  predicate TooLong(v: JsValue) {
    Truthy(v) && TypeOf(v) == StringType && JsLength(v.s) > MaxTextLength
  }

  /** The violations the length loop finds after going through `fields`. */
  function LengthViolations(data: JsValue, fields: seq<string>): seq<Violation>
    decreases |fields|
  {
    if fields == [] then []
    else
      var field := fields[|fields| - 1];
      LengthViolations(data, fields[..|fields| - 1])
        + (if TooLong(Get(data, field)) then [TextTooLong(field)] else [])
  }

  /** The violations the id, name, height and mass checks find, in order. */
  function FieldViolations(data: JsValue): seq<Violation> {
    IdViolations(Get(data, "id")) + NameViolations(Get(data, "name"))
      + TypeViolations(Get(data, "height"), HeightNotText) + TypeViolations(Get(data, "mass"), MassNotText)
  }

  /** The rules `data` breaks, in the order validate checks them. */
  function Violations(data: JsValue): seq<Violation> {
    if !IsObjectLike(data) then [NotAnObject]
    else FieldViolations(data) + LengthViolations(data, TextFields)
  }

  /** The error list FavoriteValidator.validate returns. */
  function Errors(data: JsValue): seq<string> {
    Messages(Violations(data))
  }

  lemma LengthViolationsSnoc(data: JsValue, fields: seq<string>, field: string)
    ensures LengthViolations(data, fields + [field])
      == LengthViolations(data, fields) + (if TooLong(Get(data, field)) then [TextTooLong(field)] else [])
  {
    assert (fields + [field])[..|fields|] == fields;
  }

  /** The id, name, height and mass checks of FavoriteValidator.validate, in order. */
  method CheckFieldRules(data: JsValue) returns (found: seq<Violation>)
    ensures found == FieldViolations(data)
  {
    found := [];
    var id := Get(data, "id");
    if !Truthy(id) || TypeOf(id) != StringType {
      found := found + [IdNotText];
    }
    assert found == IdViolations(id);
    var name := Get(data, "name");
    if !Truthy(name) || TypeOf(name) != StringType {
      found := found + [NameNotText];
    } else if |Trim(name.s)| == 0 {
      found := found + [NameBlank];
    } else if JsLength(name.s) > MaxNameLength {
      found := found + [NameTooLong];
    }
    assert found == IdViolations(id) + NameViolations(name);
    var height := Get(data, "height");
    if height != Undefined && height != Null && height != Str("") {
      if TypeOf(height) != StringType {
        found := found + [HeightNotText];
      }
    }
    assert found == IdViolations(id) + NameViolations(name) + TypeViolations(height, HeightNotText);
    var mass := Get(data, "mass");
    if mass != Undefined && mass != Null && mass != Str("") {
      if TypeOf(mass) != StringType {
        found := found + [MassNotText];
      }
    }
  }

  /** FavoriteValidator.validate: records each broken rule in the order the checks run,
      stopping at the first when the input is not an object, and returns their messages. */
  method Validate(data: JsValue) returns (errors: seq<string>)
    ensures errors == Errors(data)
  {
    var found: seq<Violation> := [];
    if !Truthy(data) || TypeOf(data) != ObjectType {
      found := found + [NotAnObject];
      return Messages(found);
    }
    found := CheckFieldRules(data);
    var long := CheckLengthRules(data);
    found := found + long;
    return Messages(found);
  }

  /** The length loop of FavoriteValidator.validate: a violation for each text field
      holding a string longer than MaxTextLength code units, in field order. */
  method CheckLengthRules(data: JsValue) returns (found: seq<Violation>)
    ensures found == LengthViolations(data, TextFields)
  {
    found := [];
    for i := 0 to |TextFields|
      invariant found == LengthViolations(data, TextFields[..i])
    {
      var field := TextFields[i];
      var value := Get(data, field);
      assert TextFields[..i + 1] == TextFields[..i] + [field];
      LengthViolationsSnoc(data, TextFields[..i], field);
      if Truthy(value) && TypeOf(value) == StringType && JsLength(value.s) > MaxTextLength {
        found := found + [TextTooLong(field)];
      }
    }
    assert TextFields[..|TextFields|] == TextFields;
  }

  // ---------------------------------------------------------------------------
  // sanitize

  /** A kept optional value: strings are trimmed, anything else passes unchanged. */
  function Normalized(v: JsValue): JsValue {
    if v.Str? then Str(Trim(v.s)) else v
  }

  /** The object the copy loop leaves after going through `fields`, starting from `base`. */
  function CopyOptional(data: JsValue, fields: seq<string>, base: map<string, JsValue>): map<string, JsValue>
    decreases |fields|
  {
    if fields == [] then base
    else
      var field := fields[|fields| - 1];
      var copied := CopyOptional(data, fields[..|fields| - 1], base);
      var v := Get(data, field);
      if !Blank(v) then copied[field := Normalized(v)] else copied
  }

  /** `data.id?.toString().trim() || ''`; None when toString throws. */
  function SanitizedId(id: JsValue): Option<string> {
    if id == Undefined || id == Null then Some("")
    else
      match ToJsString(id)
      case None => None
      case Some(s) => Some(Trim(s))
  }

  /** `data.name?.trim() || ''`; None when name has no trim method to call. */
  function SanitizedName(name: JsValue): Option<string> {
    if name == Undefined || name == Null then Some("")
    else if name.Str? then Some(Trim(name.s))
    else None
  }

  function Required(id: string, name: string): map<string, JsValue> {
    map["id" := Str(id), "name" := Str(name)]
  }

  /** The object FavoriteValidator.sanitize returns; None when it throws a TypeError
      (on null or undefined data, or on an id or name it cannot convert). */
  function Sanitized(data: JsValue): Option<map<string, JsValue>> {
    if data == Undefined || data == Null then None
    else
      match (SanitizedId(Get(data, "id")), SanitizedName(Get(data, "name")))
      case (Some(id), Some(name)) => Some(CopyOptional(data, OptionalFields, Required(id, name)))
      case _ => None
  }

  /** FavoriteValidator.sanitize: sets id and name, then copies each non-blank optional
      field. */
  method Sanitize(data: JsValue) returns (result: Option<map<string, JsValue>>)
    ensures result == Sanitized(data)
  {
    if data == Undefined || data == Null {
      return None;
    }
    var id := SanitizedId(Get(data, "id"));
    var name := SanitizedName(Get(data, "name"));
    if id.None? || name.None? {
      return None;
    }
    var sanitized := Required(id.value, name.value);
    for i := 0 to |OptionalFields|
      invariant sanitized == CopyOptional(data, OptionalFields[..i], Required(id.value, name.value))
    {
      var field := OptionalFields[i];
      var value := Get(data, field);
      assert OptionalFields[..i + 1][..i] == OptionalFields[..i];
      if value != Undefined && value != Null && value != Str("") {
        sanitized := sanitized[field := if value.Str? then Str(Trim(value.s)) else value];
      }
    }
    assert OptionalFields[..|OptionalFields|] == OptionalFields;
    return Some(sanitized);
  }

  // ---------------------------------------------------------------------------
  // validateAndSanitize

  datatype Validation = Validation(valid: bool, errors: seq<string>, data: Option<map<string, JsValue>>)

  /** FavoriteValidator.validateAndSanitize: the errors when there are any, otherwise the
      sanitized record; sanitize never throws on an input validate accepts. */
  function ValidateAndSanitize(data: JsValue): (r: Validation)
    ensures r.valid <==> Errors(data) == []
    ensures !r.valid ==> r.errors == Errors(data) && r.data == None
    ensures r.valid ==> r.errors == [] && r.data == Sanitized(data) && r.data.Some?
  {
    var errors := Errors(data);
    if |errors| > 0 then Validation(false, errors, None)
    else
      ErrorsEmptyIffAcceptable(data);
      AcceptedSanitizes(data);
      Validation(true, [], Sanitized(data))
  }

  // ---------------------------------------------------------------------------
  // What the rules amount to

  /** The field rules stated directly on the values, independently of the order in which
      validate checks them. */
  predicate IdAccepted(id: JsValue) { id.Str? && id.s != "" }

  predicate NameAccepted(name: JsValue) {
    name.Str? && Trim(name.s) != [] && JsLength(name.s) <= MaxNameLength
  }

  predicate TypeAccepted(v: JsValue) { v == Undefined || v == Null || v.Str? }

  predicate LengthAccepted(v: JsValue) { v.Str? ==> JsLength(v.s) <= MaxTextLength }

  predicate Acceptable(data: JsValue) {
    && data.Obj?
    && IdAccepted(Get(data, "id"))
    && NameAccepted(Get(data, "name"))
    && TypeAccepted(Get(data, "height"))
    && TypeAccepted(Get(data, "mass"))
    && forall field :: field in TextFields ==> LengthAccepted(Get(data, field))
  }

  /** What each check finds, stated with the rules above. */
  lemma IdViolationsAre(id: JsValue)
    ensures IdViolations(id) == if IdAccepted(id) then [] else [IdNotText]
  {
  }

  lemma NameViolationsAre(name: JsValue)
    ensures NameViolations(name) ==
      if NameAccepted(name) then []
      else if !(name.Str? && name.s != "") then [NameNotText]
      else if Trim(name.s) == [] then [NameBlank]
      else [NameTooLong]
  {
  }

  /** The name checks find at most one violation. */
  lemma NameViolationsOnce(name: JsValue)
    ensures var found := multiset(NameViolations(name));
      found[NameNotText] + found[NameBlank] + found[NameTooLong] == if NameAccepted(name) then 0 else 1
  {
    NameViolationsAre(name);
  }

  lemma TypeViolationsAre(v: JsValue, w: Violation)
    ensures TypeViolations(v, w) == if TypeAccepted(v) then [] else [w]
  {
  }

  lemma {:induction false} LengthViolationsEmpty(data: JsValue, fields: seq<string>)
    ensures LengthViolations(data, fields) == [] <==> forall field :: field in fields ==> LengthAccepted(Get(data, field))
    decreases |fields|
  {
    if fields != [] {
      var init, last := fields[..|fields| - 1], fields[|fields| - 1];
      LengthViolationsEmpty(data, init);
      TooLongIsNotAccepted(Get(data, last));
      assert fields == init + [last];
    }
  }

  lemma TooLongIsNotAccepted(v: JsValue)
    ensures TooLong(v) <==> !LengthAccepted(v)
  {
  }

  /** The violations of an object, split by the check that finds them. */
  lemma ViolationsOfObjectAre(data: JsValue)
    requires IsObjectLike(data)
    ensures var id, name, height, mass := Get(data, "id"), Get(data, "name"), Get(data, "height"), Get(data, "mass");
      Violations(data) ==
        (if IdAccepted(id) then [] else [IdNotText])
        + NameViolations(name)
        + (if TypeAccepted(height) then [] else [HeightNotText])
        + (if TypeAccepted(mass) then [] else [MassNotText])
        + LengthViolations(data, TextFields)
  {
    var id, name, height, mass := Get(data, "id"), Get(data, "name"), Get(data, "height"), Get(data, "mass");
    IdViolationsAre(id);
    TypeViolationsAre(height, HeightNotText);
    TypeViolationsAre(mass, MassNotText);
  }

  /** validate returns no error exactly for the inputs that satisfy every field rule. */
  lemma ErrorsEmptyIffAcceptable(data: JsValue)
    ensures Errors(data) == [] <==> Acceptable(data)
  {
    if IsObjectLike(data) {
      var id, name, height, mass := Get(data, "id"), Get(data, "name"), Get(data, "height"), Get(data, "mass");
      ViolationsOfObjectAre(data);
      NameViolationsAre(name);
      LengthViolationsEmpty(data, TextFields);
      if data.Arr? {
        assert id == Undefined;
      }
    }
  }

  lemma {:induction false} LengthViolationsFrom(data: JsValue, fields: seq<string>, v: Violation)
    requires v in LengthViolations(data, fields)
    ensures v.TextTooLong? && v.field in fields && TooLong(Get(data, v.field))
    decreases |fields|
  {
    var init := fields[..|fields| - 1];
    if v in LengthViolations(data, init) {
      LengthViolationsFrom(data, init, v);
    }
  }

  lemma {:induction false} LengthViolationsHas(data: JsValue, fields: seq<string>, field: string)
    requires field in fields && TooLong(Get(data, field))
    ensures TextTooLong(field) in LengthViolations(data, fields)
    decreases |fields|
  {
    var init := fields[..|fields| - 1];
    if field != fields[|fields| - 1] {
      assert fields == init + [fields[|fields| - 1]];
      LengthViolationsHas(data, init, field);
    }
  }

  /** Only length violations come from the length loop. */
  lemma LengthViolationsCount(data: JsValue, v: Violation)
    requires !v.TextTooLong?
    ensures multiset(LengthViolations(data, TextFields))[v] == 0
  {
    if v in LengthViolations(data, TextFields) {
      LengthViolationsFrom(data, TextFields, v);
    }
  }

  /** A violation whose message validate can emit. */
  predicate Reported(v: Violation) {
    v.TextTooLong? ==> v.field in TextFields
  }

  /** The rule a reported message is about, read off its length and two of its
      characters. */
  function RuleOf(m: string): Violation {
    if |m| == 41 then NotAnObject
    else if |m| == 45 then IdNotText
    else if |m| == 36 then NameBlank
    else if |m| == 32 then HeightNotText
    else if |m| == 30 then MassNotText
    else if |m| == 47 then (if m[16] == 'e' then NameNotText else NameTooLong)
    else if |m| <= 10 then NotAnObject
    else if m[10] == 'h' then TextTooLong("hair_color")
    else if m[10] == 's' then TextTooLong("skin_color")
    else if m[10] == 'e' then TextTooLong("eye_color")
    else if m[10] == 'b' then TextTooLong("birth_year")
    else TextTooLong("gender")
  }

  lemma TooLongRuleOf(field: string)
    requires field in TextFields
    ensures RuleOf(Message(TextTooLong(field))) == TextTooLong(field)
  {
    var m := Message(TextTooLong(field));
    assert |m| == 42 + |field| && m[10] == field[0];
  }

  /** Each reported message names its rule. */
  lemma RuleOfMessage(v: Violation)
    requires Reported(v)
    ensures RuleOf(Message(v)) == v
  {
    if v.TextTooLong? {
      TooLongRuleOf(v.field);
    }
  }

  /** Different reported violations have different messages. */
  lemma MessageInjective(a: Violation, b: Violation)
    requires Reported(a) && Reported(b) && a != b
    ensures Message(a) != Message(b)
  {
    RuleOfMessage(a);
    RuleOfMessage(b);
  }

  lemma {:induction false} MessageCount(vs: seq<Violation>, v: Violation)
    requires Reported(v) && forall w :: w in vs ==> Reported(w)
    ensures multiset(Messages(vs))[Message(v)] == multiset(vs)[v]
    decreases |vs|
  {
    if vs != [] {
      var init, last := vs[..|vs| - 1], vs[|vs| - 1];
      assert vs == init + [last];
      MessageCount(init, v);
      if last != v {
        MessageInjective(last, v);
      }
    }
  }

  /** Every violation of an object comes from a field rule; the length rule only reports
      fields of TextFields. */
  lemma ViolationsOfObject(data: JsValue, v: Violation)
    requires IsObjectLike(data) && v in Violations(data)
    ensures v != NotAnObject
    ensures v.TextTooLong? ==> v.field in TextFields && TooLong(Get(data, v.field))
  {
    if v in LengthViolations(data, TextFields) {
      LengthViolationsFrom(data, TextFields, v);
    }
  }

  /** For an object, each message occurs in the error list as often as its rule is broken. */
  lemma ErrorCount(data: JsValue, v: Violation)
    requires IsObjectLike(data) && Reported(v)
    ensures multiset(Errors(data))[Message(v)] == multiset(Violations(data))[v]
  {
    forall w | w in Violations(data) ensures Reported(w) {
      ViolationsOfObject(data, w);
    }
    MessageCount(Violations(data), v);
  }

  /** A falsy or non-object input gets the single "not an object" message and no field is
      looked at; an object or array never gets that message. */
  lemma NotAnObjectIsSingleError(data: JsValue)
    ensures !IsObjectLike(data) ==> Errors(data) == [Message(NotAnObject)]
    ensures IsObjectLike(data) ==> Message(NotAnObject) !in Errors(data)
  {
    if IsObjectLike(data) {
      if NotAnObject in Violations(data) {
        ViolationsOfObject(data, NotAnObject);
      }
      ErrorCount(data, NotAnObject);
    }
  }

  lemma IdCount(id: JsValue, v: Violation)
    ensures multiset(IdViolations(id))[v] == if v == IdNotText && !IdAccepted(id) then 1 else 0
  {
  }

  lemma TypeCount(x: JsValue, w: Violation, v: Violation)
    ensures multiset(TypeViolations(x, w))[v] == if v == w && !TypeAccepted(x) then 1 else 0
  {
  }

  /** A rule other than a length rule is broken by an object as often as the field checks
      find it. */
  lemma FieldRuleCount(data: JsValue, v: Violation)
    requires IsObjectLike(data) && !v.TextTooLong?
    ensures var id, name, height, mass := Get(data, "id"), Get(data, "name"), Get(data, "height"), Get(data, "mass");
      multiset(Violations(data))[v] ==
        (if v == IdNotText && !IdAccepted(id) then 1 else 0)
        + multiset(NameViolations(name))[v]
        + (if v == HeightNotText && !TypeAccepted(height) then 1 else 0)
        + (if v == MassNotText && !TypeAccepted(mass) then 1 else 0)
  {
    var id, name, height, mass := Get(data, "id"), Get(data, "name"), Get(data, "height"), Get(data, "mass");
    assert Violations(data) == FieldViolations(data) + LengthViolations(data, TextFields);
    LengthViolationsCount(data, v);
    IdCount(id, v);
    TypeCount(height, HeightNotText, v);
    TypeCount(mass, MassNotText, v);
  }

  /** The id rule: its message appears, once, exactly when id is not a non-empty string. */
  lemma IdRule(data: JsValue)
    requires IsObjectLike(data)
    ensures multiset(Errors(data))[Message(IdNotText)] == if IdAccepted(Get(data, "id")) then 0 else 1
  {
    NameViolationsAre(Get(data, "name"));
    FieldRuleCount(data, IdNotText);
    ErrorCount(data, IdNotText);
  }

  /** The name rule: exactly one of its three messages appears when name is not accepted,
      none when it is, and which one follows the order of the checks. */
  lemma NameRule(data: JsValue)
    requires IsObjectLike(data)
    ensures var name, e := Get(data, "name"), multiset(Errors(data));
      && e[Message(NameNotText)] + e[Message(NameBlank)] + e[Message(NameTooLong)]
           == (if NameAccepted(name) then 0 else 1)
      && (e[Message(NameNotText)] == 1 <==> !(name.Str? && name.s != ""))
      && (e[Message(NameBlank)] == 1 <==> name.Str? && name.s != "" && Trim(name.s) == [])
      && (e[Message(NameTooLong)] == 1 <==> name.Str? && Trim(name.s) != [] && JsLength(name.s) > MaxNameLength)
  {
    var name, e := Get(data, "name"), multiset(Errors(data));
    var found := multiset(NameViolations(name));
    FieldRuleCount(data, NameNotText);
    FieldRuleCount(data, NameBlank);
    FieldRuleCount(data, NameTooLong);
    ErrorCount(data, NameNotText);
    ErrorCount(data, NameBlank);
    ErrorCount(data, NameTooLong);
    assert e[Message(NameNotText)] == found[NameNotText];
    assert e[Message(NameBlank)] == found[NameBlank];
    assert e[Message(NameTooLong)] == found[NameTooLong];
    NameViolationsAre(name);
    NameViolationsOnce(name);
  }

  lemma NameViolationsOfOtherRule(name: JsValue, v: Violation)
    requires v != NameNotText && v != NameBlank && v != NameTooLong
    ensures multiset(NameViolations(name))[v] == 0
  {
  }

  /** The type rules of height and mass: the message appears, once, exactly when the value
      is neither undefined, null nor a string; a string is never looked into. */
  lemma TypeRules(data: JsValue)
    requires IsObjectLike(data)
    ensures multiset(Errors(data))[Message(HeightNotText)] == if TypeAccepted(Get(data, "height")) then 0 else 1
    ensures multiset(Errors(data))[Message(MassNotText)] == if TypeAccepted(Get(data, "mass")) then 0 else 1
  {
    NameViolationsOfOtherRule(Get(data, "name"), HeightNotText);
    NameViolationsOfOtherRule(Get(data, "name"), MassNotText);
    FieldRuleCount(data, HeightNotText);
    FieldRuleCount(data, MassNotText);
    ErrorCount(data, HeightNotText);
    ErrorCount(data, MassNotText);
  }

  lemma LengthViolationsMember(data: JsValue, field: string)
    requires field in TextFields
    ensures TextTooLong(field) in LengthViolations(data, TextFields) <==> !LengthAccepted(Get(data, field))
  {
    if TextTooLong(field) in LengthViolations(data, TextFields) {
      LengthViolationsFrom(data, TextFields, TextTooLong(field));
    }
    if !LengthAccepted(Get(data, field)) {
      LengthViolationsHas(data, TextFields, field);
    }
  }

  /** The length rule of each text field: its message appears exactly when the value is a
      string longer than MaxTextLength; a value of any other type passes. */
  lemma LengthRule(data: JsValue, field: string)
    requires IsObjectLike(data) && field in TextFields
    ensures Message(TextTooLong(field)) in Errors(data) <==> !LengthAccepted(Get(data, field))
  {
    var v := TextTooLong(field);
    ErrorCount(data, v);
    ViolationsOfObjectAre(data);
    NameViolationsAre(Get(data, "name"));
    assert multiset(Violations(data))[v] == multiset(LengthViolations(data, TextFields))[v];
    LengthViolationsMember(data, field);
  }

  lemma {:induction false} MessagesAppend(a: seq<Violation>, b: seq<Violation>)
    ensures Messages(a + b) == Messages(a) + Messages(b)
    decreases |b|
  {
    if b == [] {
      assert a + b == a;
    } else {
      assert (a + b)[..|a + b| - 1] == a + b[..|b| - 1];
      MessagesAppend(a, b[..|b| - 1]);
    }
  }

  lemma MessagesPair(a: Violation, b: Violation)
    ensures Messages([a, b]) == [Message(a), Message(b)]
  {
    assert [a, b][..1] == [a];
  }

  lemma MissingIdAndNameViolations(data: JsValue)
    requires IsObjectLike(data) && Get(data, "id") == Undefined && Get(data, "name") == Undefined
    ensures Violations(data) == [IdNotText, NameNotText]
      + (TypeViolations(Get(data, "height"), HeightNotText) + TypeViolations(Get(data, "mass"), MassNotText)
      + LengthViolations(data, TextFields))
  {
    assert IdViolations(Undefined) == [IdNotText];
    assert NameViolations(Undefined) == [NameNotText];
  }

  /** An object with neither id nor name breaks both required-field rules: errors
      accumulate rather than stop at the first. Their two messages come first, and they
      are all the errors when no other rule is broken. */
  lemma MissingIdAndNameErrors(data: JsValue)
    requires IsObjectLike(data) && Get(data, "id") == Undefined && Get(data, "name") == Undefined
    ensures |Errors(data)| >= 2 && Errors(data)[..2] == [Message(IdNotText), Message(NameNotText)]
    ensures TypeAccepted(Get(data, "height")) && TypeAccepted(Get(data, "mass"))
      && (forall field :: field in TextFields ==> LengthAccepted(Get(data, field)))
      ==> Errors(data) == [Message(IdNotText), Message(NameNotText)]
  {
    var rest := TypeViolations(Get(data, "height"), HeightNotText) + TypeViolations(Get(data, "mass"), MassNotText)
      + LengthViolations(data, TextFields);
    MissingIdAndNameViolations(data);
    MessagesAppend([IdNotText, NameNotText], rest);
    MessagesPair(IdNotText, NameNotText);
    if TypeAccepted(Get(data, "height")) && TypeAccepted(Get(data, "mass"))
      && (forall field :: field in TextFields ==> LengthAccepted(Get(data, field)))
    {
      TypeViolationsAre(Get(data, "height"), HeightNotText);
      TypeViolationsAre(Get(data, "mass"), MassNotText);
      LengthViolationsEmpty(data, TextFields);
      assert rest == [];
    }
  }

  // ---------------------------------------------------------------------------
  // What sanitize keeps

  lemma {:induction false} CopyOptionalKeys(data: JsValue, fields: seq<string>, base: map<string, JsValue>, k: string)
    ensures var m := CopyOptional(data, fields, base);
      && (k in fields ==> (k in m <==> k in base || !Blank(Get(data, k))))
      && (k in fields && !Blank(Get(data, k)) ==> m[k] == Normalized(Get(data, k)))
      && (k !in fields ==> (k in m <==> k in base) && (k in base ==> m[k] == base[k]))
    decreases |fields|
  {
    if fields != [] {
      var init := fields[..|fields| - 1];
      CopyOptionalKeys(data, init, base, k);
      assert fields == init + [fields[|fields| - 1]];
    }
  }

  /** What sanitize returns for an input it does not throw on: trimmed id and name, and an
      optional field exactly when its input is not undefined, null or '', trimmed when it
      is a string and unchanged otherwise; no other key. */
  lemma SanitizedFields(data: JsValue, field: string)
    requires Sanitized(data).Some?
    ensures var m := Sanitized(data).value;
      && "id" in m && m["id"] == Str(SanitizedId(Get(data, "id")).value)
      && "name" in m && m["name"] == Str(SanitizedName(Get(data, "name")).value)
      && (field in OptionalFields ==> (field in m <==> !Blank(Get(data, field))))
      && (field in OptionalFields && field in m ==> m[field] == Normalized(Get(data, field)))
      && (field in m ==> field == "id" || field == "name" || field in OptionalFields)
  {
    var base := Required(SanitizedId(Get(data, "id")).value, SanitizedName(Get(data, "name")).value);
    CopyOptionalKeys(data, OptionalFields, base, field);
    CopyOptionalKeys(data, OptionalFields, base, "id");
    CopyOptionalKeys(data, OptionalFields, base, "name");
  }

  /** When id and name pass their rules, as on every input validate accepts, sanitize
      does not throw, and its record holds the trimmed id and a trimmed name of 1 to
      MaxNameLength code units. */
  lemma AcceptedSanitizes(data: JsValue)
    requires IdAccepted(Get(data, "id")) && NameAccepted(Get(data, "name"))
    ensures Sanitized(data).Some?
    ensures var m := Sanitized(data).value;
      && "id" in m && m["id"] == Str(Trim(Get(data, "id").s))
      && "name" in m && m["name"] == Str(Trim(Get(data, "name").s))
      && 0 < |m["name"].s| && JsLength(m["name"].s) <= MaxNameLength
  {
    var id, name := Get(data, "id"), Get(data, "name");
    assert SanitizedId(id) == Some(Trim(id.s));
    assert SanitizedName(name) == Some(Trim(name.s));
    JsLengthTrim(name.s);
    SanitizedFields(data, "id");
  }

  /** Normalising a kept value never breaks the type or length rule it passed. */
  lemma NormalizedKeepsRules(v: JsValue)
    ensures TypeAccepted(v) ==> TypeAccepted(Normalized(v))
    ensures LengthAccepted(v) ==> LengthAccepted(Normalized(v))
  {
    if v.Str? {
      JsLengthTrim(v.s);
    }
  }

  /** A field of the sanitized record is absent or the normalised input value. */
  lemma SanitizedGet(data: JsValue, field: string)
    requires Sanitized(data).Some? && field in OptionalFields
    ensures var v := Get(Obj(Sanitized(data).value), field);
      v == Undefined || v == Normalized(Get(data, field))
  {
    SanitizedFields(data, field);
  }

  /** The sanitized record of an input whose optional fields pass their rules passes
      them too. */
  lemma SanitizedKeepsOptionalRules(data: JsValue)
    requires Sanitized(data).Some?
    requires TypeAccepted(Get(data, "height")) && TypeAccepted(Get(data, "mass"))
    requires forall field :: field in TextFields ==> LengthAccepted(Get(data, field))
    ensures var again := Obj(Sanitized(data).value);
      && TypeAccepted(Get(again, "height")) && TypeAccepted(Get(again, "mass"))
      && forall field :: field in TextFields ==> LengthAccepted(Get(again, field))
  {
    var again := Obj(Sanitized(data).value);
    SanitizedGet(data, "height");
    SanitizedGet(data, "mass");
    NormalizedKeepsRules(Get(data, "height"));
    NormalizedKeepsRules(Get(data, "mass"));
    forall field | field in TextFields ensures LengthAccepted(Get(again, field)) {
      SanitizedGet(data, field);
      NormalizedKeepsRules(Get(data, field));
    }
  }

  /** Validating the record sanitize returns for an accepted input succeeds exactly when
      the trimmed id is not empty: validate only asks for a non-empty id, and sanitize
      trims it afterwards. Stated with the rules, which ErrorsEmptyIffAcceptable equates
      with an empty error list. */
  lemma RevalidateSanitized(data: JsValue)
    requires Acceptable(data)
    ensures Sanitized(data).Some?
    ensures Acceptable(Obj(Sanitized(data).value)) <==> Trim(Get(data, "id").s) != []
  {
    AcceptedSanitizes(data);
    var again := Obj(Sanitized(data).value);
    TrimIdempotent(Get(data, "name").s);
    assert NameAccepted(Get(again, "name"));
    SanitizedKeepsOptionalRules(data);
  }

  /** An id made only of whitespace passes its rule, and sanitize stores it as the empty
      string whenever the name passes too. */
  lemma BlankIdAccepted(data: JsValue)
    requires IsObjectLike(data)
    requires Get(data, "id").Str? && Get(data, "id").s != [] && AllWhitespace(Get(data, "id").s)
    ensures multiset(Errors(data))[Message(IdNotText)] == 0
    ensures NameAccepted(Get(data, "name")) ==>
      Sanitized(data).Some? && "id" in Sanitized(data).value && Sanitized(data).value["id"] == Str("")
  {
    IdRule(data);
    if NameAccepted(Get(data, "name")) {
      AcceptedSanitizes(data);
      TrimEmptyIffAllWhitespace(Get(data, "id").s);
    }
  }
}
