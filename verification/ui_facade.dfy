/** The message helpers of the UI facade: the error text built from an exception's cause
    chain, the exception report, and the alert kind chosen from a message type whose two
    top bits carry formatting flags. */
module UiMessages {
  import opened Wrappers

  // ---------------------------------------------------------------------------------------
  // buildMessage

  /** A throwable, seen as the messages along its cause chain: the exception itself first,
      then its cause, and so on; `None` is a null message. A null throwable is the empty
      chain. */
  type CauseChain = seq<Option<string>>

  const LineBreak: string := "<br>"

  /** The messages `buildMessage` appends, given the last one appended so far: null
      messages and a repeat of the previous message are skipped. */
  function Appended(chain: CauseChain, last: Option<string>): seq<string> {
    if chain == [] then []
    else match chain[0]
      case None => Appended(chain[1..], last)
      case Some(m) =>
        if Some(m) == last then Appended(chain[1..], last) else [m] + Appended(chain[1..], Some(m))
  }

  /** Each message followed by a line break. */
  function Render(ms: seq<string>): string {
    if ms == [] then "" else ms[0] + LineBreak + Render(ms[1..])
  }

  /** `buildMessage`: walks the cause chain, appending every message that is not null and
      differs from the one appended last. */
  method BuildMessage(chain: CauseChain) returns (result: string)
    ensures result == Render(Appended(chain, None))
  {
    result := "";
    var lastMessage: Option<string> := None;
    var i := 0;
    while i < |chain|
      invariant 0 <= i <= |chain|
      invariant Render(Appended(chain, None)) == result + Render(Appended(chain[i..], lastMessage))
    {
      assert chain[i..][1..] == chain[i + 1..];
      if chain[i].Some? && lastMessage != chain[i] {
        result := result + chain[i].value + LineBreak;
        lastMessage := chain[i];
      }
      i := i + 1;
    }
  }

  /** The text is empty exactly when every message along the chain is null. */
  lemma {:induction false} BuildMessageEmpty(chain: CauseChain)
    ensures Render(Appended(chain, None)) == "" <==> forall i :: 0 <= i < |chain| ==> chain[i].None?
  {
    if chain != [] {
      BuildMessageEmpty(chain[1..]);
      if chain[0].Some? {
        assert |Render(Appended(chain, None))| >= |LineBreak|;
      } else {
        assert forall i :: 1 <= i < |chain| ==> chain[i] == chain[1..][i - 1];
      }
    }
  }

  /** No two messages in a row are the same, and the first differs from the one before. */
  predicate NoRepeats(ms: seq<string>, last: Option<string>) {
    (ms != [] ==> Some(ms[0]) != last) && forall i :: 0 <= i < |ms| - 1 ==> ms[i] != ms[i + 1]
  }

  lemma {:induction false} AppendedNoRepeats(chain: CauseChain, last: Option<string>)
    ensures NoRepeats(Appended(chain, last), last)
  {
    if chain != [] {
      match chain[0]
      case None => AppendedNoRepeats(chain[1..], last);
      case Some(m) =>
        if Some(m) != last {
          AppendedNoRepeats(chain[1..], Some(m));
        } else {
          AppendedNoRepeats(chain[1..], last);
        }
    }
  }

  /** Nothing is lost but repeats: every non-null message of the chain is in the text. */
  lemma {:induction false} AppendedComplete(chain: CauseChain, last: Option<string>)
    ensures forall i :: 0 <= i < |chain| && chain[i].Some? && chain[i] != last ==>
      chain[i].value in Appended(chain, last)
  {
    if chain != [] {
      var next := if chain[0].Some? && chain[0] != last then chain[0] else last;
      AppendedComplete(chain[1..], next);
      forall i | 1 <= i < |chain| && chain[i].Some? && chain[i] != last
        ensures chain[i].value in Appended(chain, last)
      {
        assert chain[1..][i - 1] == chain[i];
      }
    }
  }

  // ---------------------------------------------------------------------------------------
  // getExceptionReport

  /** `StringBuilder.append` of a possibly null string. */
  function MessageText(message: Option<string>): string {
    match message
    case None => "null"
    case Some(m) => m
  }

  /** `getExceptionReport`: the message, then (except for a document exception) a blank line
      and the stack trace. */
  function ExceptionReport(message: Option<string>, isDocumentException: bool, stackTrace: string): (r: string)
    ensures |MessageText(message)| <= |r| && r[..|MessageText(message)|] == MessageText(message)
    ensures isDocumentException ==> r == MessageText(message)
    ensures !isDocumentException ==> r[|MessageText(message)|..] == "\n\n" + stackTrace
  {
    var msg := MessageText(message);
    if isDocumentException then msg else msg + "\n\n" + stackTrace
  }

  // ---------------------------------------------------------------------------------------
  // Alert kind of showOptionDialog

  const HtmlMessageFormat: bv32 := 1 << 30
  const MarkdownMessageFormat: bv32 := 1 << 31

  /** The message type with both formatting flags cleared. */
  function AlertType(messageType: bv32): (t: bv32)
    ensures t & (HtmlMessageFormat | MarkdownMessageFormat) == 0
    ensures t | (messageType & (HtmlMessageFormat | MarkdownMessageFormat)) == messageType
  {
    messageType & !(HtmlMessageFormat | MarkdownMessageFormat)
  }

  datatype AlertKind = Information | Warning | Confirmation | Error

  /** The JOptionPane message types (error 0, information 1, warning 2, question 3) and the
      alert each one opens; any other type opens none. */
  function AlertKindOf(messageType: bv32): (k: Option<AlertKind>)
    ensures k.Some? <==> AlertType(messageType) <= 3
  {
    var t := AlertType(messageType);
    if t == 1 then Some(Information)
    else if t == 2 then Some(Warning)
    else if t == 3 then Some(Confirmation)
    else if t == 0 then Some(Error)
    else None
  }

  /** The formatting flags never change which alert opens. */
  lemma AlertKindIgnoresFlags(messageType: bv32, html: bool, markdown: bool)
    ensures AlertKindOf(messageType | (if html then HtmlMessageFormat else 0)
                                    | (if markdown then MarkdownMessageFormat else 0))
         == AlertKindOf(messageType)
  {
  }
}
