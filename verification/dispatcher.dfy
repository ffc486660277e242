/** The message dispatcher of a game object, as a function of the store it
    finds and the message it receives: the response it returns and the store
    it leaves behind. `GameObject.ReceiveMessage` is proved to behave
    exactly like `Dispatch`. */
module Dispatcher {
  import opened Messaging
  import P = Properties
  import S = PropertyStore

  const AlreadyExists: string := "Property name already exists"
  const DoesNotExist: string := "Property name does not exist"

  /** The response to a message together with the store afterwards. */
  datatype Reply = Reply(response: Response, after: S.Store)

  /** The inbound type switch: the three scalar wire types map to the
      property kind of the same name; every other tag, `Error` included,
      falls back to the `String` kind. */
  function Inbound(t: PropType): (k: P.PropertyType)
    ensures k != P.Error
    ensures t != Error ==> ConvertPropertyType(k) == t
    ensures t == Error ==> k == P.String
  {
    match t
    case Bool => P.Bool
    case Number => P.Number
    case String => P.String
    case Error => P.String
  }

  /** The outbound type conversion: each property kind maps to the wire type
      of the same name. */
  function ConvertPropertyType(k: P.PropertyType): (t: PropType)
    ensures t == Error <==> k == P.Error
  {
    match k
    case Bool => Bool
    case Number => Number
    case String => String
    case Error => Error
  }

  /** Reading a non-Error kind back through the inbound switch gives the
      same kind again. */
  lemma ConvertThenInbound(k: P.PropertyType)
    requires k != P.Error
    ensures Inbound(ConvertPropertyType(k)) == k
  {
  }

  /** The outbound conversion never maps two kinds to the same wire type. */
  lemma ConvertIsInjective(a: P.PropertyType, b: P.PropertyType)
    requires ConvertPropertyType(a) == ConvertPropertyType(b)
    ensures a == b
  {
    if a != P.Error && b != P.Error {
      ConvertThenInbound(a);
      ConvertThenInbound(b);
    }
  }

  /** One message against one store. The existence check comes first; each
      action then either answers with a structured error and leaves the store
      alone, or applies the matching store operation. */
  function Dispatch(s: S.Store, source: string, m: Message): (r: Reply)
    ensures r.response.source == source
    // A failure never changes the store, and reading never does.
    ensures !r.response.status ==> r.after == s
    ensures m.action.Get? ==> r.after == s
    // Success is decided by the existence check alone.
    ensures m.action.Add? ==> (r.response.status <==> m.property !in s)
    ensures (m.action.Get? || m.action.Set? || m.action.Remove?) ==> (r.response.status <==> m.property in s)
    ensures m.action.Unknown? ==> r.response == Response(false, "Error", "Error", Error, source)
    // Failure answers.
    ensures m.action.Add? && m.property in s ==>
      r.response == Response(false, m.property, AlreadyExists, Error, source)
    ensures (m.action.Get? || m.action.Set? || m.action.Remove?) && m.property !in s ==>
      r.response == Response(false, m.property, DoesNotExist, Error, source)
    // Success answers and their effect on the store.
    ensures (m.action.Add? || m.action.Set?) && r.response.status ==>
      r.response == Response(true, m.property, m.value, m.propType, source) &&
      r.after == s[m.property := S.Entry(Inbound(m.propType), m.value)]
    ensures m.action.Get? && m.property in s ==>
      r.response == Response(true, m.property, s[m.property].value,
                             ConvertPropertyType(s[m.property].kind), source)
    ensures m.action.Remove? && m.property in s ==>
      r.response == Response(true, m.property, "none", Bool, source) &&
      m.property !in r.after && r.after == s - {m.property}
  {
    var present := m.property in s;
    var kind := Inbound(m.propType);
    match m.action
    case Add =>
      if present then Reply(Response(false, m.property, AlreadyExists, Error, source), s)
      else
        var step := S.Add(s, P.PropertyData(kind, m.property, m.value));
        Reply(Response(step.ok, m.property, m.value, m.propType, source), step.after)
    case Get =>
      if !present then Reply(Response(false, m.property, DoesNotExist, Error, source), s)
      else
        var p := S.Get(s, m.property);
        Reply(Response(true, p.name, p.value, ConvertPropertyType(p.kind), source), s)
    case Set =>
      if !present then Reply(Response(false, m.property, DoesNotExist, Error, source), s)
      else
        var step := S.Set(s, m.property, m.value, kind);
        Reply(Response(step.ok, m.property, m.value, m.propType, source), step.after)
    case Remove =>
      if !present then Reply(Response(false, m.property, DoesNotExist, Error, source), s)
      else
        var step := S.Remove(s, m.property);
        Reply(Response(step.ok, m.property, "none", Bool, source), step.after)
    case Unknown =>
      Reply(Response(false, "Error", "Error", Error, source), s)
  }

  /** Adding a fresh name by message and then reading it back by message
      returns the value that was sent. The type comes back as sent, except
      that a declared `Error` comes back as `String`, the kind it was
      stored under. */
  lemma AddThenGet(s: S.Store, source: string, add: Message, get: Message)
    requires add.action == Add && add.property !in s
    requires get.action == Get && get.property == add.property
    ensures Dispatch(s, source, add).response.status
    ensures var back := Dispatch(Dispatch(s, source, add).after, source, get).response;
      back.status && back.property == add.property && back.value == add.value &&
      back.propType == (if add.propType == Error then String else add.propType)
  {
  }

  /** A second Add for a name that a first Add created is refused, and the
      value stored by the first one stays. */
  lemma SecondAddRefused(s: S.Store, source: string, first: Message, second: Message)
    requires first.action == Add && second.action == Add
    requires first.property !in s && second.property == first.property
    ensures var once := Dispatch(s, source, first).after;
      Dispatch(once, source, second).response ==
        Response(false, first.property, AlreadyExists, Error, source) &&
      Dispatch(once, source, second).after[first.property].value == first.value
  {
  }

  /** Set on a present name: the stored kind and value are the ones the
      message carries (after the inbound switch), and no other name changes. */
  lemma SetOverwritesOnlyItsEntry(s: S.Store, source: string, update: Message, n: string)
    requires update.action == Set && update.property in s && n != update.property
    ensures var r := Dispatch(s, source, update);
      r.after.Keys == s.Keys && (n in s ==> r.after[n] == s[n]) &&
      r.after[update.property] == S.Entry(Inbound(update.propType), update.value)
  {
  }
}
