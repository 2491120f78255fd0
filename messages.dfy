/** Messages passed between message ports. A `Message` has a type, fixed
    when it is built, and data that handlers may overwrite. A
    `ControlMessage` is a message whose type is forced to CONTROL and which
    carries a GET or SET subtype. Ruby symbols are written as strings; data is
    a number or nil. */
module Messages {
  import opened Wrappers

  const CONTROL := "messageTypeControl"
  const COMMAND := "messageTypeCommand"
  const TYPES := [CONTROL, COMMAND]

  const GET := "controlMessageSubtypeGet"
  const SET := "controlMessageSubtypeSet"
  const SUBTYPES := [GET, SET]

  class Message {
    const msgType: string
    /** The subtype of a ControlMessage; None for a plain Message. */
    const subtype: Option<string>
    var data: Option<real>

    constructor (msgType: string, subtype: Option<string>, data: Option<real>)
      ensures this.msgType == msgType && this.subtype == subtype && this.data == data
    {
      this.msgType := msgType;
      this.subtype := subtype;
      this.data := data;
    }

    predicate IsControlMessage()
    {
      subtype.Some?
    }
  }

  /** Build a plain message; a type outside TYPES is refused. Data defaults
      to nil. */
  method NewMessage(msgType: string, data: Option<real> := None) returns (r: Result<Message>)
    ensures r.Err? <==> msgType !in TYPES
    ensures r.Err? ==> r.error == InvalidMessageType
    ensures r.Ok? ==> fresh(r.value) && !r.value.IsControlMessage()
    ensures r.Ok? ==> r.value.msgType == msgType && r.value.data == data
  {
    if msgType !in TYPES {
      return Err(InvalidMessageType);
    }
    var m := new Message(msgType, None, data);
    r := Ok(m);
  }

  /** Build a control message. The subtype must be GET or SET; whatever type
      the caller asks for is replaced by CONTROL. */
  method NewControlMessage(subtype: string, data: Option<real> := None, requestedType: Option<string> := None)
    returns (r: Result<Message>)
    ensures r.Err? <==> subtype !in SUBTYPES
    ensures r.Err? ==> r.error == InvalidSubtype
    ensures r.Ok? ==> fresh(r.value) && r.value.IsControlMessage()
    ensures r.Ok? ==> r.value.msgType == CONTROL && r.value.subtype == Some(subtype) && r.value.data == data
  {
    if subtype !in SUBTYPES {
      return Err(InvalidSubtype);
    }
    var m := new Message(CONTROL, Some(subtype), data);
    r := Ok(m);
  }

  /** A SET control message carrying `data`. */
  method MakeSetMessage(data: Option<real>) returns (m: Message)
    ensures fresh(m) && m.msgType == CONTROL && m.subtype == Some(SET) && m.data == data
  {
    var r := NewControlMessage(SET, data);
    m := r.value;
  }

  /** A GET control message, with no data. */
  method MakeGetMessage() returns (m: Message)
    ensures fresh(m) && m.msgType == CONTROL && m.subtype == Some(GET) && m.data == None
  {
    var r := NewControlMessage(GET);
    m := r.value;
  }

  /** Which of its two handlers a control-message dispatcher calls. */
  datatype Handler = CallGet | CallSet

  /** The dispatcher built by `make_handler`: a plain message is refused,
      GET and SET choose the matching handler, and any other subtype is
      refused. */
  function Dispatch(m: Message): (r: Result<Handler>)
    ensures !m.IsControlMessage() ==> r == Err(NotAControlMessage)
    ensures r == Ok(CallGet) <==> m.subtype == Some(GET)
    ensures r == Ok(CallSet) <==> m.subtype == Some(SET)
    ensures m.IsControlMessage() && m.subtype.value !in SUBTYPES ==> r == Err(InvalidSubtype)
  {
    if m.subtype.None? then Err(NotAControlMessage)
    else if m.subtype.value == GET then Ok(CallGet)
    else if m.subtype.value == SET then Ok(CallSet)
    else Err(InvalidSubtype)
  }
}
