/**
 * The chat with a walker: a transcript kept per request and walker under
 * the key `chat_<requestId>_<walkerName>`, a canned greeting when nothing
 * is saved, user messages and simulated replies appended at the end.
 * Clock readings and the random reply index are parameters.
 */
module Chat {
  import opened Optional
  import opened JsString

  datatype Sender = UserSender | WalkerSender

  /** A chat message; the timestamp is a clock reading in milliseconds. */
  datatype Message = Message(id: int, text: string, sender: Sender, timestamp: int)

  const DefaultWalkerName: string := "Paseador"

  const GreetingPrefix: string := "¡Hola! Soy "

  /** The greeting of a transcript with nothing saved; it names the walker right after the salutation. */
  function Greeting(walkerName: string): (g: string)
    ensures |g| > |GreetingPrefix| + |walkerName|
    ensures g[..|GreetingPrefix|] == GreetingPrefix
    ensures g[|GreetingPrefix|..|GreetingPrefix| + |walkerName|] == walkerName
  {
    GreetingPrefix + walkerName + ", tu paseador asignado. ¿Cómo está tu mascota?"
  }

  /** The fixed replies a walker picks from. */
  const Responses: seq<string> := [
    "No hay inconveniente alguno.",
    "Perfecto, no hay problema.",
    "Entendido, sin problemas.",
    "No te preocupes, todo está bien.",
    "Perfecto, me parece bien.",
    "Entendido, todo bajo control.",
    "¡Perfecto! Todo listo.",
    "No hay inconveniente con eso.",
    "Perfecto, sin problemas.",
    "Entendido, no hay inconveniente.",
    "¡Genial! Todo está claro.",
    "Perfecto, todo bien.",
    "No hay problema alguno.",
    "Entendido, sin inconveniente.",
    "¡Perfecto! No hay inconveniente."
  ]

  /** `params['walker'] || 'Paseador'`: an absent or empty name falls back to the default. */
  function WalkerNameFrom(param: Option<string>): (name: string)
    ensures name != []
    ensures param.Some? && param.value != [] ==> name == param.value
    ensures param.None? || param.value == [] ==> name == DefaultWalkerName
  {
    if param.Some? && param.value != [] then param.value else DefaultWalkerName
  }

  /**
   * `parseInt(params['requestId']) || null`, given the parse result (None
   * for NaN): zero is falsy too, so it becomes null as well.
   */
  function RequestIdFrom(parsed: Option<int>): (id: Option<int>)
    ensures id.None? <==> parsed.None? || parsed.value == 0
    ensures id.Some? ==> id == parsed && id.value != 0
  {
    if parsed.Some? && parsed.value != 0 then parsed else None
  }

  /** A request id as a template literal renders it. */
  function IdText(id: Option<int>): (t: string)
    ensures '_' !in t
  {
    if id.None? then "null" else NumberToString(id.value)
  }

  function ChatKey(requestId: Option<int>, walkerName: string): string {
    "chat_" + IdText(requestId) + "_" + walkerName
  }

  lemma IdTextInjective(a: Option<int>, b: Option<int>)
    requires IdText(a) == IdText(b)
    ensures a == b
  {
    if a.Some? && b.Some? {
      NumberToStringInjective(a.value, b.value);
    }
  }

  /** After the fixed `chat_` prefix the key is the id text, a separator and the name. */
  lemma ChatKeyTail(id: Option<int>, name: string)
    ensures |ChatKey(id, name)| >= 5 && ChatKey(id, name)[5..] == IdText(id) + ['_'] + name
  {
    var t := IdText(id) + ['_'] + name;
    assert ChatKey(id, name) == "chat_" + t;
  }

  /** The id text and the name can be read back from the part after the prefix. */
  lemma TailDetermines(t1: string, n1: string, t2: string, n2: string)
    requires '_' !in t1 && '_' !in t2
    requires t1 + ['_'] + n1 == t2 + ['_'] + n2
    ensures t1 == t2 && n1 == n2
  {
    SplitAtFirst(t1, '_', n1);
    SplitAtFirst(t2, '_', n2);
    var s := t1 + ['_'] + n1;
    assert n1 == s[|t1| + 1..];
    assert n2 == (t2 + ['_'] + n2)[|t2| + 1..];
  }

  /** Different chats never share a transcript: the key determines request id and walker name. */
  lemma ChatKeyInjective(id1: Option<int>, name1: string, id2: Option<int>, name2: string)
    requires ChatKey(id1, name1) == ChatKey(id2, name2)
    ensures id1 == id2 && name1 == name2
  {
    ChatKeyTail(id1, name1);
    ChatKeyTail(id2, name2);
    TailDetermines(IdText(id1), name1, IdText(id2), name2);
    IdTextInjective(id1, id2);
  }

  class ChatComponent {
    var walkerName: string
    var requestId: Option<int>
    var messages: seq<Message>
    var newMessage: string
    /** Browser storage: transcripts by key. */
    var storage: map<string, seq<Message>>

    function Key(): string
      reads this
    {
      ChatKey(requestId, walkerName)
    }

    /** The transcript on screen is the one saved under this chat's key. */
    ghost predicate Saved()
      reads this
    {
      Key() in storage && storage[Key()] == messages
    }

    /** `ngOnInit`: reads the route parameters, then loads the transcript. */
    constructor(walkerParam: Option<string>, parsedRequestId: Option<int>,
                savedChats: map<string, seq<Message>>, now: int)
      ensures walkerName == WalkerNameFrom(walkerParam) && requestId == RequestIdFrom(parsedRequestId)
      ensures storage == savedChats && newMessage == []
      ensures Key() in storage ==> messages == storage[Key()]
      ensures Key() !in storage ==> messages == [Message(1, Greeting(walkerName), WalkerSender, now)]
    {
      walkerName := WalkerNameFrom(walkerParam);
      requestId := RequestIdFrom(parsedRequestId);
      storage := savedChats;
      newMessage := [];
      new;
      LoadMessages(now);
    }

    /** Shows the saved transcript, or a single greeting from the walker when none is saved. */
    method LoadMessages(now: int)
      modifies this
      ensures Key() in storage ==> messages == storage[Key()]
      ensures Key() !in storage ==> messages == [Message(1, Greeting(walkerName), WalkerSender, now)]
      ensures walkerName == old(walkerName) && requestId == old(requestId)
      ensures newMessage == old(newMessage) && storage == old(storage)
    {
      var key := Key();
      if key in storage {
        messages := storage[key];
      } else {
        messages := [Message(1, Greeting(walkerName), WalkerSender, now)];
      }
    }

    /**
     * A blank input changes nothing; otherwise the trimmed text is appended
     * as the user's message, the input is cleared and the transcript saved.
     * The result says whether a walker reply was scheduled.
     */
    method SendMessage(now: int) returns (replyScheduled: bool)
      modifies this
      ensures replyScheduled <==> !AllWhitespace(old(newMessage))
      ensures !replyScheduled ==> unchanged(this)
      ensures replyScheduled ==>
        && messages == old(messages) + [Message(now, Trim(old(newMessage)), UserSender, now)]
        && newMessage == [] && Saved()
        && storage == old(storage)[Key() := messages]
      ensures walkerName == old(walkerName) && requestId == old(requestId)
    {
      var text := Trim(newMessage);
      if text == [] {
        return false;
      }
      messages := messages + [Message(now, text, UserSender, now)];
      newMessage := [];
      SaveMessages();
      replyScheduled := true;
    }

    /** Appends the walker's reply number `choice` (the random pick) and saves. */
    method SimulateWalkerResponse(choice: nat, now: int)
      requires choice < |Responses|
      modifies this
      ensures messages == old(messages) + [Message(now + 1, Responses[choice], WalkerSender, now)]
      ensures messages[|messages| - 1].text in Responses
      ensures Saved() && storage == old(storage)[Key() := messages]
      ensures walkerName == old(walkerName) && requestId == old(requestId)
      ensures newMessage == old(newMessage)
    {
      messages := messages + [Message(now + 1, Responses[choice], WalkerSender, now)];
      SaveMessages();
    }

    /** Writes the transcript under this chat's key, leaving every other chat's transcript alone. */
    method SaveMessages()
      modifies this
      ensures storage == old(storage)[Key() := messages] && Saved()
      ensures forall k :: k in old(storage) && k != Key() ==> k in storage && storage[k] == old(storage)[k]
      ensures messages == old(messages) && newMessage == old(newMessage)
      ensures walkerName == old(walkerName) && requestId == old(requestId)
    {
      storage := storage[Key() := messages];
    }
  }
}
