/** The chat widget's controller: the open/closed state, the key field, the
    transcript of bubbles, and the submit protocol that asks the remote
    provider first and falls back on the local responder. */
module Chat {
  import opened Wrappers
  import opened Text
  import opened Catalog
  import opened LocalResponder
  import opened RemoteProvider

  datatype Sender = User | Bot

  /** One bubble of the transcript: its text and the `bubble user` or
      `bubble bot` class. */
  datatype Bubble = Bubble(text: string, who: Sender)

  /** The text of the bubble shown while an answer is awaited. */
  const Placeholder := "... جارِ التفكير"

  /** The greeting posted by the load handler. */
  const Greeting := "Hi! I'm your AI assistant. Here's a quick intro to my projects and tools."

  /** JavaScript falsiness of a string-or-null: null and "" are falsy. */
  predicate Falsy(a: Option<string>) {
    a.None? || a.value == ""
  }

  /** The answer a submission resolves to: the remote text unless it is falsy,
      the local answer otherwise. Failure: localAnswer rejected. */
  function ResolveAnswer(key: string, message: string, remote: HttpOutcome, source: CatalogSource): (r: Result<string, CatalogError>)
    ensures r.Success? ==> r.value != ""
  {
    var remoteText := Nullable(RemoteAnswer(key, remote));
    if Falsy(remoteText) then LocalAnswer(message, source) else Success(remoteText.value)
  }

  /** Remote first: a non-empty remote text is the answer, and the local
      responder decides whenever the remote result is null or empty. */
  lemma RemoteFirstThenLocal(key: string, message: string, remote: HttpOutcome, source: CatalogSource)
    ensures RemoteAnswer(key, remote).Answer? && RemoteAnswer(key, remote).text != "" ==>
      ResolveAnswer(key, message, remote, source) == Success(RemoteAnswer(key, remote).text)
    ensures RemoteAnswer(key, remote).Unavailable? ==>
      ResolveAnswer(key, message, remote, source) == LocalAnswer(message, source)
    ensures RemoteAnswer(key, remote) == Answer("") ==>
      ResolveAnswer(key, message, remote, source) == LocalAnswer(message, source)
  {
  }

  /** With no key, or with a key and a rejected request, the answer is the
      local one. */
  lemma NoKeyOrRejectedIsLocal(key: string, message: string, remote: HttpOutcome, source: CatalogSource)
    requires key == "" || remote.Rejected? || (remote.Responded? && !IsOk(remote.status))
    ensures ResolveAnswer(key, message, remote, source) == LocalAnswer(message, source)
  {
  }

  /** An answer always resolves when the message is not about projects or
      the projects branch resolves: the only failing path is the projects
      branch of the local responder. */
  lemma ResolvesUnlessCatalogFails(key: string, message: string, remote: HttpOutcome, source: CatalogSource)
    requires IntentOf(message) != AboutProjects || ProjectsAnswer(source).Success?
    ensures ResolveAnswer(key, message, remote, source).Success?
  {
  }

  /** The toggleChat transition: an explicit argument is the new state, no
      argument flips it (`forceOpen ?? !open`). */
  function NextOpen(open: bool, force: Option<bool>): bool {
    force.GetOr(!open)
  }

  /** Toggling without argument twice restores the state; forcing a state is
      idempotent and ignores the current state. */
  lemma ToggleLaws(open: bool, b: bool)
    ensures NextOpen(NextOpen(open, None), None) == open
    ensures NextOpen(NextOpen(open, Some(b)), Some(b)) == NextOpen(open, Some(b)) == b
    ensures NextOpen(open, None) != open
  {
  }

  class ChatSession {
    /** chatState.open and chatState.key. */
    var open: bool
    var key: string
    /** The bubbles of #chatMessages, oldest first. */
    var transcript: seq<Bubble>
    /** The value of the #chatInput field. */
    var input: string
    /** The widget's `open` class and its aria-hidden attribute. */
    var widgetOpen: bool
    var ariaHidden: bool

    /** The widget shows whether the chat is open. */
    ghost predicate Valid()
      reads this
    {
      widgetOpen == open && ariaHidden == !open
    }

    /** The state at page load: closed, no key, no bubbles, an empty field. */
    constructor ()
      ensures Valid()
      ensures !open && key == "" && transcript == [] && input == ""
    {
      open, key, transcript, input := false, "", [], "";
      widgetOpen, ariaHidden := false, true;
    }

    /** toggleChat(forceOpen). */
    method Toggle(force: Option<bool>)
      modifies this`open, this`widgetOpen, this`ariaHidden
      ensures open == NextOpen(old(open), force)
      ensures Valid()
    {
      open := NextOpen(open, force);
      widgetOpen := open;
      ariaHidden := !open;
    }

    /** The change listener of the key field: the key is the trimmed value. */
    method SetKey(value: string)
      modifies this`key
      ensures key == Trim(value)
    {
      key := Trim(value);
    }

    /** The user edits the message field. */
    method SetInput(value: string)
      modifies this`input
      ensures input == value
    {
      input := value;
    }

    /** addBubble(text, who): appends one bubble at the end. */
    method AddBubble(text: string, who: Sender)
      modifies this`transcript
      ensures transcript == old(transcript) + [Bubble(text, who)]
    {
      transcript := transcript + [Bubble(text, who)];
    }

    /** The submit handler, run to completion before the next submission.
        `remote` is what the request would give, `source` what the catalog
        fetch would give. It returns the request it sent, if any, and whether
        it consulted the local responder.
        A message that trims to nothing changes nothing and consults no
        provider. Otherwise the user bubble and the placeholder are appended,
        the field is cleared, and the placeholder's text becomes the resolved
        answer; if localAnswer rejects, the placeholder stays. */
    method Submit(remote: HttpOutcome, source: CatalogSource) returns (request: Option<CompletionRequest>, askedLocal: bool)
      modifies this`transcript, this`input
      ensures var message := Trim(old(input));
        if message == "" then
          && transcript == old(transcript) && input == old(input)
          && request == None && !askedLocal
        else
          var answer := ResolveAnswer(key, message, remote, source);
          && input == ""
          && request == RequestFor(key, message)
          && askedLocal == Falsy(Nullable(RemoteAnswer(key, remote)))
          && transcript == old(transcript) + [Bubble(message, User), Bubble(if answer.Success? then answer.value else Placeholder, Bot)]
    {
      var message := Trim(input);
      if message == "" {
        request, askedLocal := None, false;
        return;
      }
      AddBubble(message, User);
      input := "";
      ghost var earlier := transcript;
      assert earlier == old(transcript) + [Bubble(message, User)];
      AddBubble(Placeholder, Bot);
      var thinking := |transcript| - 1;

      request := RequestFor(key, message);
      askedLocal := Falsy(Nullable(RemoteAnswer(key, remote)));
      var answer := ResolveAnswer(key, message, remote, source);
      if answer.Success? {
        transcript := transcript[thinking := transcript[thinking].(text := answer.value)];
        assert transcript == earlier + [Bubble(answer.value, Bot)];
      } else {
        assert transcript == earlier + [Bubble(Placeholder, Bot)];
      }
    }

    /** The load handler: open the chat, greet, then post the local answer to
        "projects" (nothing more if that rejects). */
    method Introduce(source: CatalogSource)
      modifies this`open, this`widgetOpen, this`ariaHidden, this`transcript
      ensures open && Valid()
      ensures var intro := LocalAnswer("projects", source);
        transcript == old(transcript) + [Bubble(Greeting, Bot)] + (if intro.Success? then [Bubble(intro.value, Bot)] else [])
    {
      Toggle(Some(true));
      AddBubble(Greeting, Bot);
      var intro := LocalAnswer("projects", source);
      if intro.Success? {
        AddBubble(intro.value, Bot);
      }
    }
  }

  /** The load handler's introduction is the projects branch of localAnswer:
      the intro and the catalog's first five records, or a rejection. */
  lemma IntroIsProjectsReply(source: CatalogSource)
    ensures LocalAnswer("projects", source) == ProjectsAnswer(source)
  {
    KeywordsAreLowerCase("projects");
    ContainsInfix("", "projects", "");
    assert "" + "projects" + "" == "projects";
    assert MentionsAny(ToLower("projects"), ProjectKeywords);
  }
}
