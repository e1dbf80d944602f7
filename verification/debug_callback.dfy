/** The diagnostics bridge: the filter the renderer registers its debug
    messenger with (`setup_debug_callback`) and the callback itself
    (`vulkan_debug_callback`), which turns a driver message into one log
    line at a level chosen by the message's severity. */
module DebugCallback {
  import opened Vk
  import CStrings

  datatype Severity = Verbose | Info | Warning | Error
  datatype MessageType = General | Validation | Performance | DeviceAddressBinding

  /** The `log` crate's levels. */
  datatype LogLevel = LogError | LogWarn | LogInfo | LogDebug | LogTrace

  /** `vk::FALSE`: the driver is told not to abort the call that raised the message. */
  const VK_FALSE: U32 := 0

  /** The severities and message types the messenger is registered for. */
  const MESSENGER_SEVERITIES: set<Severity> := {Error, Warning, Info}
  const MESSENGER_TYPES: set<MessageType> := {General, Validation, Performance, DeviceAddressBinding}

  type MessengerHandle = nat

  /** VkDebugUtilsMessengerCreateInfoEXT; the callback is always
      `vulkan_debug_callback` and is not represented. */
  datatype MessengerCreateInfo = MessengerCreateInfo(severities: set<Severity>, types: set<MessageType>)

  /** `setup_debug_callback`: registers the callback for error, warning and
      info messages (not verbose ones) of every type, and returns the
      driver's answer. */
  method SetupDebugCallback(createMessenger: MessengerCreateInfo -> Fallible<MessengerHandle>)
    returns (r: Fallible<MessengerHandle>)
    ensures r == createMessenger(MessengerCreateInfo(MESSENGER_SEVERITIES, MESSENGER_TYPES))
  {
    var info := MessengerCreateInfo(MESSENGER_SEVERITIES, MESSENGER_TYPES);
    r := createMessenger(info);
  }

  /** What one invocation of the callback does: the line it logs, the level
      it logs it at, and the value it returns to the driver. */
  datatype CallbackOutcome = CallbackOutcome(level: LogLevel, line: string, returned: U32)

  /** The `contains!` tag of one message type. */
  function Tag(types: set<MessageType>, t: MessageType, letter: char): (c: char)
    ensures c == letter <==> t in types || letter == '_'
    ensures c == letter || c == '_'
  {
    if t in types then letter else '_'
  }

  /** The log line: three tags (or four, with `_` for the absent B tag),
      the message id and, unless the message is about device address
      binding, the message itself; id and message rendered with `{:?}`. */
  function FormatLine(types: set<MessageType>, messageIdName: seq<Byte>, message: seq<Byte>): (line: string)
    ensures 8 <= |line|
    ensures line[0] == (if General in types then 'G' else '_')
    ensures line[1] == (if Validation in types then 'V' else '_')
    ensures line[2] == (if Performance in types then 'P' else '_')
    ensures DeviceAddressBinding in types ==> line[3..6] == " | "
    ensures DeviceAddressBinding !in types ==> line[3..7] == "_ | "
  {
    var g := Tag(types, General, 'G');
    var v := Tag(types, Validation, 'V');
    var p := Tag(types, Performance, 'P');
    var b := Tag(types, DeviceAddressBinding, 'B');
    if b == 'B' then
      [g, v, p] + " | " + CStrings.DebugCStr(messageIdName)
    else
      [g, v, p, b] + " | " + CStrings.DebugCStr(messageIdName) + " | " + CStrings.DebugCStr(message)
  }

  /** The severity ladder: the first of ERROR, WARNING, INFO, VERBOSE that
      the severity contains picks the level; none of them gives trace. */
  function LevelFor(severity: set<Severity>): (level: LogLevel)
    ensures level == LogError <==> Error in severity
    ensures level == LogWarn <==> Error !in severity && Warning in severity
    ensures level == LogInfo <==> Error !in severity && Warning !in severity && Info in severity
    ensures level == LogDebug <==> Error !in severity && Warning !in severity && Info !in severity && Verbose in severity
    ensures level == LogTrace <==> Error !in severity && Warning !in severity && Info !in severity && Verbose !in severity
  {
    if Error in severity then LogError
    else if Warning in severity then LogWarn
    else if Info in severity then LogInfo
    else if Verbose in severity then LogDebug
    else LogTrace
  }

  /** `vulkan_debug_callback`. */
  function Callback(severity: set<Severity>, types: set<MessageType>, messageIdName: seq<Byte>, message: seq<Byte>)
    : (out: CallbackOutcome)
    ensures out.returned == VK_FALSE
    ensures out.level == LevelFor(severity)
    ensures out.line == FormatLine(types, messageIdName, message)
  {
    CallbackOutcome(LevelFor(severity), FormatLine(types, messageIdName, message), VK_FALSE)
  }

  /** What a log line says, read back from its text. */
  datatype ParsedLine = ParsedLine(tags: string, messageIdName: seq<Byte>, message: Option<seq<Byte>>)

  /** Reads `" | "` followed by a `{:?}`-rendered C string. */
  function ReadField(s: string): (r: Option<(seq<Byte>, string)>)
  {
    if |s| >= 3 && s[..3] == " | " then CStrings.ReadDebugCStr(s[3..]) else None
  }

  /** Reads a log line back: its tags, its message id and, when the fourth
      tag is there, its message. */
  function ParseLine(line: string): (p: Option<ParsedLine>)
  {
    if |line| < 4 then None
    else if line[3] == '_' then
      match ReadField(line[4..])
      case None => None
      case Some((id, rest)) =>
        match ReadField(rest)
        case None => None
        case Some((msg, tail)) =>
          if tail == [] then Some(ParsedLine(line[..3], id, Some(msg))) else None
    else
      match ReadField(line[3..])
      case None => None
      case Some((id, tail)) =>
        if tail == [] then Some(ParsedLine(line[..3], id, None)) else None
  }

  lemma ReadFieldOfFormatted(bytes: seq<Byte>, rest: string)
    ensures ReadField(" | " + CStrings.DebugCStr(bytes) + rest) == Some((bytes, rest))
  {
    var s := " | " + CStrings.DebugCStr(bytes) + rest;
    assert s[..3] == " | ";
    assert s[3..] == CStrings.DebugCStr(bytes) + rest;
    CStrings.DebugCStrRoundTrip(bytes, rest);
  }

  /** The log line loses nothing it is meant to carry: the tags, the
      message id, and the message exactly when the message is not about
      device address binding. */
  lemma ParseLineInvertsFormatLine(types: set<MessageType>, messageIdName: seq<Byte>, message: seq<Byte>)
    ensures ParseLine(FormatLine(types, messageIdName, message)) == Some(ParsedLine(
      [Tag(types, General, 'G'), Tag(types, Validation, 'V'), Tag(types, Performance, 'P')],
      messageIdName,
      if DeviceAddressBinding in types then None else Some(message)))
  {
    var tags := [Tag(types, General, 'G'), Tag(types, Validation, 'V'), Tag(types, Performance, 'P')];
    if DeviceAddressBinding in types {
      ParseIdOnlyLine(tags, messageIdName);
    } else {
      assert FormatLine(types, messageIdName, message)
          == tags + ['_'] + " | " + CStrings.DebugCStr(messageIdName) + " | " + CStrings.DebugCStr(message);
      ParseFullLine(tags, messageIdName, message);
    }
  }

  lemma ParseIdOnlyLine(tags: string, messageIdName: seq<Byte>)
    requires |tags| == 3
    ensures ParseLine(tags + " | " + CStrings.DebugCStr(messageIdName)) == Some(ParsedLine(tags, messageIdName, None))
  {
    var line := tags + " | " + CStrings.DebugCStr(messageIdName);
    assert line[3] == ' ';
    assert line[3..] == " | " + CStrings.DebugCStr(messageIdName) + [];
    ReadFieldOfFormatted(messageIdName, []);
    assert line[..3] == tags;
  }

  lemma ParseFullLine(tags: string, messageIdName: seq<Byte>, message: seq<Byte>)
    requires |tags| == 3
    ensures ParseLine(tags + ['_'] + " | " + CStrings.DebugCStr(messageIdName) + " | " + CStrings.DebugCStr(message))
         == Some(ParsedLine(tags, messageIdName, Some(message)))
  {
    var body := " | " + CStrings.DebugCStr(message);
    var line := tags + ['_'] + " | " + CStrings.DebugCStr(messageIdName) + " | " + CStrings.DebugCStr(message);
    assert line[3] == '_';
    assert line[4..] == " | " + CStrings.DebugCStr(messageIdName) + body;
    ReadFieldOfFormatted(messageIdName, body);
    assert body == " | " + CStrings.DebugCStr(message) + [];
    ReadFieldOfFormatted(message, []);
    assert line[..3] == tags;
  }

  /** The driver delivers each message with exactly one severity bit, and
      only those the messenger was registered for: such messages are logged
      at error, warn or info, never at debug or trace. */
  lemma DeliveredMessagesAreNeverDebugOrTrace(s: Severity)
    requires s in MESSENGER_SEVERITIES
    ensures LevelFor({s}) in {LogError, LogWarn, LogInfo}
    ensures LevelFor({s}) == (if s == Error then LogError else if s == Warning then LogWarn else LogInfo)
  {
  }
}
