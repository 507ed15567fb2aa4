/** The table of message handlers and the dispatch of incoming requests to them. */
module Dispatcher {
  import opened Text
  import opened Json
  import opened Frames

  const NOT_IMPLEMENTED := "NotImplemented"
  const TYPE_CONSTRAINT_VIOLATION := "TypeConstraintViolation"

  /** A payload validator: which payloads it accepts and what it says of the others. */
  datatype Validator = Validator(accepts: Json -> bool, lastError: Json -> string)

  /** An entry of the handler table; the validator is a pointer that may be null. */
  datatype Entry = Entry(validator: Option<Validator>, handler: nat)

  type Table = map<string, Entry>

  /** Every entry of a table that registration builds has a validator. */
  ghost predicate NoNullValidator(table: Table) {
    forall a | a in table :: table[a].validator.Some?
  }

  /** The outcome of a request; `says` is what the registered handler answers if it is called. */
  function Dispatch(table: Table, action: string, payload: Json, says: Outcome): Outcome
    requires NoNullValidator(table)
  {
    if action !in table then Refused(NOT_IMPLEMENTED, "")
    else
      var v := table[action].validator.value;
      if v.accepts(payload) then says else Refused(TYPE_CONSTRAINT_VIOLATION, v.lastError(payload))
  }

  /** One call of `registerHandler`, with the validator that the loader comes up with. */
  datatype Registration = Registration(action: string, handler: nat, allowReplace: bool, validator: Option<Validator>)

  function Register(table: Table, r: Registration): Table {
    if (r.allowReplace || r.action !in table) && r.validator.Some? then table[r.action := Entry(r.validator, r.handler)]
    else table
  }

  class MessageDispatcher {
    var handlers: map<string, Entry>

    constructor ()
      ensures handlers == map[]
    {
      handlers := map[];
    }

    /** Adds a handler if the action has none or may be replaced, and a validator for it can be loaded. */
    method RegisterHandler(action: string, handler: nat, allowReplace: bool, validator: Option<Validator>) returns (ret: bool)
      requires NoNullValidator(handlers)
      modifies this
      ensures NoNullValidator(handlers)
      ensures ret <==> (allowReplace || action !in old(handlers)) && validator.Some?
      ensures handlers == Register(old(handlers), Registration(action, handler, allowReplace, validator))
    {
      ret := false;
      if allowReplace || action !in handlers {
        if validator.Some? {
          handlers := handlers[action := Entry(validator, handler)];
          ret := true;
        }
      }
    }

    /** The error branch dereferences the validator. */
    method DispatchMessage(action: string, payload: Json, says: Outcome) returns (called: Option<nat>, outcome: Outcome)
      requires NoNullValidator(handlers)
      ensures action !in handlers ==> called == None && outcome == Refused(NOT_IMPLEMENTED, "")
      ensures action in handlers ==>
        var v := handlers[action].validator.value;
        && (v.accepts(payload) ==> called == Some(handlers[action].handler) && outcome == says)
        && (!v.accepts(payload) ==> called == None && outcome == Refused(TYPE_CONSTRAINT_VIOLATION, v.lastError(payload)))
      ensures outcome == Dispatch(handlers, action, payload, says)
    {
      called, outcome := None, Refused("", "");
      if action in handlers {
        var entry := handlers[action];
        if entry.validator.Some? && entry.validator.value.accepts(payload) {
          called, outcome := Some(entry.handler), says;
        } else {
          outcome := Refused(TYPE_CONSTRAINT_VIOLATION, entry.validator.value.lastError(payload));
        }
      } else {
        outcome := Refused(NOT_IMPLEMENTED, "");
      }
    }
  }

  // ---------------------------------------------------------------- over all registrations

  function RegisterAll(table: Table, rs: seq<Registration>): Table
    decreases |rs|
  {
    if rs == [] then table else RegisterAll(Register(table, rs[0]), rs[1..])
  }

  /** No sequence of registrations leaves a null validator in the table. */
  lemma {:induction false} RegistrationsKeepValidators(table: Table, rs: seq<Registration>)
    requires NoNullValidator(table)
    ensures NoNullValidator(RegisterAll(table, rs))
    decreases |rs|
  {
    if rs != [] {
      RegistrationsKeepValidators(Register(table, rs[0]), rs[1..]);
    }
  }

  /** Without replacement, the first registration whose validator loads decides the handler of an action for good. */
  lemma {:induction false} FirstRegistrationWins(table: Table, rs: seq<Registration>, action: string)
    requires action in table && forall i | 0 <= i < |rs| :: !rs[i].allowReplace
    ensures action in RegisterAll(table, rs) && RegisterAll(table, rs)[action] == table[action]
    decreases |rs|
  {
    if rs != [] {
      FirstRegistrationWins(Register(table, rs[0]), rs[1..], action);
    }
  }

  /** Registration `i` is stored: its validator loads, and it may replace or its action is free. An action is free if
      the table does not have it and no earlier registration of it had a validator. */
  predicate Stored(table: Table, rs: seq<Registration>, i: nat) {
    && i < |rs| && rs[i].validator.Some?
    && (rs[i].allowReplace ||
        (rs[i].action !in table && forall j | 0 <= j < i :: rs[j].action == rs[i].action ==> rs[j].validator.None?))
  }

  /** After any list of registrations an action has the handler and the validator of the last one that was stored
      for it. */
  lemma {:induction false} LastStoredDecides(table: Table, rs: seq<Registration>, i: nat)
    requires Stored(table, rs, i) && forall j | i < j < |rs| && Stored(table, rs, j) :: rs[j].action != rs[i].action
    ensures rs[i].action in RegisterAll(table, rs)
    ensures RegisterAll(table, rs)[rs[i].action] == Entry(rs[i].validator, rs[i].handler)
    decreases |rs|
  {
    var t, rest := Register(table, rs[0]), rs[1..];
    forall j | 0 <= j < |rest| ensures Stored(t, rest, j) <==> Stored(table, rs, j + 1) {
      StoredLater(table, rs, j);
    }
    if i == 0 {
      forall j | 0 <= j < |rest| && Stored(t, rest, j) ensures rest[j].action != rs[0].action {
        assert Stored(table, rs, j + 1);
      }
      NoneStored(t, rest, rs[0].action);
    } else {
      forall j | i - 1 < j < |rest| && Stored(t, rest, j) ensures rest[j].action != rest[i - 1].action {
        assert Stored(table, rs, j + 1);
      }
      LastStoredDecides(t, rest, i - 1);
    }
  }

  lemma StoredLater(table: Table, rs: seq<Registration>, j: nat)
    requires j + 1 < |rs|
    ensures Stored(Register(table, rs[0]), rs[1..], j) <==> Stored(table, rs, j + 1)
  {
    var t, rest := Register(table, rs[0]), rs[1..];
    assert forall k | 0 <= k < |rest| :: rest[k] == rs[k + 1];
    if Stored(t, rest, j) && !rest[j].allowReplace {
      forall k | 0 <= k < j + 1 && rs[k].action == rs[j + 1].action ensures rs[k].validator.None? {
        if k > 0 {
          assert rest[k - 1].action == rest[j].action;
        }
      }
    }
  }

  /** And an action for which none was stored keeps the entry it had, or has none. */
  lemma {:induction false} NoneStored(table: Table, rs: seq<Registration>, action: string)
    requires forall i | 0 <= i < |rs| && Stored(table, rs, i) :: rs[i].action != action
    ensures action in RegisterAll(table, rs) <==> action in table
    ensures action in table ==> RegisterAll(table, rs)[action] == table[action]
    decreases |rs|
  {
    if rs != [] {
      var t, rest := Register(table, rs[0]), rs[1..];
      assert rs[0].action == action ==> !Stored(table, rs, 0);
      forall j | 0 <= j < |rest| && Stored(t, rest, j) ensures rest[j].action != action {
        StoredLater(table, rs, j);
        assert Stored(table, rs, j + 1);
      }
      NoneStored(t, rest, action);
    }
  }
}
