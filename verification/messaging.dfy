/** The record shapes of the message protocol that a game object answers:
    the wire-level type tag, the requested action, the inbound message and
    the outbound response. Only the fields the dispatcher reads or writes
    are modelled; how messages travel is not part of this model. */
module Messaging {

  /** The type tag carried on the wire. */
  datatype PropType = Bool | Number | String | Error

  /** The four actions a message can request. `Unknown` stands for any
      other value the action enumeration can hold (an enumeration value
      cast from an integer outside the four named members). */
  datatype MessageAction = Add | Get | Set | Remove | Unknown

  /** A request: the addressed object's name (informational only), the
      action, the property name, the property value and the declared type. */
  datatype Message = Message(
    target: string,
    action: MessageAction,
    property: string,
    value: string,
    propType: PropType)

  /** An answer: the outcome flag, the property name, a value or error text,
      the type tag and the name of the answering object. */
  datatype Response = Response(
    status: bool,
    property: string,
    value: string,
    propType: PropType,
    source: string)
}
