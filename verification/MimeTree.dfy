/** The message tree handed to the composer. */
module MimeTree {
  import opened Wrappers
  import opened Text
  import opened Headers

  datatype Body = Text(text: Utf8) | Bytes(bytes: ByteString) {
    function Content(): string {
      match this
      case Text(text) => text
      case Bytes(bytes) => bytes
    }
  }

  datatype Message = Message(headers: seq<Header>, body: Option<Body>, parts: seq<Message>, encoding: Option<string>)

  /** Bytes held by all bodies of a tree. */
  ghost function Size(m: Message): nat
    decreases m, 0
  {
    (if m.body.Some? then |m.body.value.Content()| else 0) + SizeAll(m.parts)
  }

  ghost function SizeAll(parts: seq<Message>): nat
    decreases parts
  {
    if parts == [] then 0 else Size(parts[0]) + SizeAll(parts[1..])
  }

  lemma SizeOfPart(parts: seq<Message>, i: nat)
    requires i < |parts|
    ensures Size(parts[i]) <= SizeAll(parts)
  {
    if i > 0 { SizeOfPart(parts[1..], i - 1); }
  }
}
