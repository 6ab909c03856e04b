/**
 * The pure parts of the relay board client: the scan-interval rule applied at
 * construction, the toggle command it writes, and the way it reads one
 * channel's state out of the last stored reply.
 */
module Protocol {
  import opened Wrappers
  import opened PyInt
  import opened PyBytes
  import Const

  // ---------------------------------------------------------------------------
  // Scan interval

  /**
   * The poll interval, in seconds, chosen for a momentary delay: the delay
   * itself when it is positive and shorter than the default interval, the
   * default interval otherwise.
   */
  function ScanIntervalSeconds(momentaryDelay: int): (s: nat)
    ensures 0 < s <= Const.ScanInterval
    ensures s < Const.ScanInterval <==> 0 < momentaryDelay < Const.ScanInterval
    ensures s < Const.ScanInterval ==> s == momentaryDelay
    ensures momentaryDelay > 0 ==> s <= momentaryDelay
  {
    if 0 < momentaryDelay < Const.ScanInterval then momentaryDelay else Const.ScanInterval
  }

  // ---------------------------------------------------------------------------
  // Toggle command: <1|2><channel>[:<delay>]

  function ActionCode(turnOn: bool): char {
    if turnOn then '1' else '2'
  }

  function DelaySuffix(momentaryDelay: int): string {
    if momentaryDelay > 0 then ":" + NatToString(momentaryDelay) else ""
  }

  /** The message `toggle` sends for a channel. */
  function ToggleMessage(turnOn: bool, channel: int, momentaryDelay: int): string {
    [ActionCode(turnOn)] + IntToString(channel) + DelaySuffix(momentaryDelay)
  }

  predicate IsAscii(s: string) {
    forall k :: 0 <= k < |s| ==> s[k] as int < 128
  }

  /** What a toggle message asks of the board. */
  datatype ToggleCommand = ToggleCommand(turnOn: bool, channel: int, delay: Option<nat>)

  /** Position of the first ':' in `s`, or |s| when there is none. */
  function FirstColon(s: string): (k: nat)
    ensures k <= |s|
    ensures forall j :: 0 <= j < k ==> s[j] != ':'
    ensures k < |s| ==> s[k] == ':'
    decreases |s|
  {
    if s == [] then 0 else if s[0] == ':' then 0 else 1 + FirstColon(s[1..])
  }

  /** Reads a toggle message the way the board is meant to. */
  function ParseToggle(msg: string): Option<ToggleCommand> {
    if |msg| < 2 || (msg[0] != '1' && msg[0] != '2') then None
    else
      var rest := msg[1..];
      var k := FirstColon(rest);
      match ParseInt(rest[..k])
      case None => None
      case Some(channel) =>
        if k == |rest| then Some(ToggleCommand(msg[0] == '1', channel, None))
        else
          match ParseNat(rest[k + 1..])
          case None => None
          case Some(d) => Some(ToggleCommand(msg[0] == '1', channel, Some(d)))
  }

  lemma FirstColonOfConcat(a: string, b: string)
    requires ':' !in a
    requires b == [] || b[0] == ':'
    ensures FirstColon(a + b) == |a|
  {
    var s := a + b;
    forall j | 0 <= j < |a| ensures s[j] != ':' {
      assert s[j] == a[j] && a[j] in a;
    }
    if |a| < |s| {
      assert s[|a|] == b[0];
    }
  }

  lemma NoColonInInt(i: int)
    ensures ':' !in IntToString(i)
  {
  }

  /**
   * The message starts with '1' exactly when switching on, carries a
   * ':' exactly when the momentary delay is positive, is plain action and
   * channel when the delay is not positive, is ASCII (so its UTF-8 encoding
   * is one byte per character), and is never the status command.
   */
  lemma ToggleMessageShape(turnOn: bool, channel: int, momentaryDelay: int)
    ensures var msg := ToggleMessage(turnOn, channel, momentaryDelay);
      && |msg| >= 2
      && (msg[0] == '1' <==> turnOn)
      && (msg[0] == '2' <==> !turnOn)
      && (':' in msg <==> momentaryDelay > 0)
      && (momentaryDelay <= 0 ==> msg == [ActionCode(turnOn)] + IntToString(channel))
      && IsAscii(msg)
      && msg != Const.StatusCommand
  {
  }

  /**
   * A toggle message can be read back: it names the action, the channel and,
   * when the momentary delay is positive, that delay.
   */
  lemma ToggleRoundTrip(turnOn: bool, channel: int, momentaryDelay: int)
    ensures ParseToggle(ToggleMessage(turnOn, channel, momentaryDelay))
      == Some(ToggleCommand(turnOn, channel, if momentaryDelay > 0 then Some(momentaryDelay) else None))
  {
    if momentaryDelay > 0 {
      MomentaryToggleRoundTrip(turnOn, channel, momentaryDelay);
    } else {
      LatchingToggleRoundTrip(turnOn, channel, momentaryDelay);
    }
  }

  lemma LatchingToggleRoundTrip(turnOn: bool, channel: int, momentaryDelay: int)
    requires momentaryDelay <= 0
    ensures ParseToggle(ToggleMessage(turnOn, channel, momentaryDelay))
      == Some(ToggleCommand(turnOn, channel, None))
  {
    var msg := ToggleMessage(turnOn, channel, momentaryDelay);
    var ch := IntToString(channel);
    assert msg == [ActionCode(turnOn)] + ch + [];
    assert msg[1..] == ch + [];
    ChannelField(channel, []);
  }

  lemma MomentaryToggleRoundTrip(turnOn: bool, channel: int, momentaryDelay: int)
    requires momentaryDelay > 0
    ensures ParseToggle(ToggleMessage(turnOn, channel, momentaryDelay))
      == Some(ToggleCommand(turnOn, channel, Some(momentaryDelay)))
  {
    var ch := IntToString(channel);
    var d := NatToString(momentaryDelay);
    assert ToggleMessage(turnOn, channel, momentaryDelay) == [ActionCode(turnOn)] + ch + [':'] + d;
    NoColonInInt(channel);
    IntToStringRoundTrip(channel);
    NatToStringRoundTrip(momentaryDelay);
    ParseMomentary(ActionCode(turnOn), ch, d, channel, momentaryDelay);
  }

  /** How the reader takes apart a message of the form action, channel, ':', delay. */
  lemma ParseMomentary(action: char, ch: string, d: string, channel: int, delay: nat)
    requires action == '1' || action == '2'
    requires ':' !in ch && ParseInt(ch) == Some(channel) && ParseNat(d) == Some(delay)
    ensures ParseToggle([action] + ch + [':'] + d) == Some(ToggleCommand(action == '1', channel, Some(delay)))
  {
    var msg := [action] + ch + [':'] + d;
    var rest := msg[1..];
    assert rest == ch + ([':'] + d);
    FirstColonOfConcat(ch, [':'] + d);
    assert rest[..|ch|] == ch;
    assert rest[|ch| + 1..] == d;
  }

  /** The channel field of a toggle message ends at the first ':' and reads back as the channel. */
  lemma ChannelField(channel: int, suffix: string)
    requires suffix == [] || suffix[0] == ':'
    ensures var rest := IntToString(channel) + suffix;
      && FirstColon(rest) == |IntToString(channel)|
      && ParseInt(rest[..|IntToString(channel)|]) == Some(channel)
  {
    var ch := IntToString(channel);
    NoColonInInt(channel);
    FirstColonOfConcat(ch, suffix);
    assert (ch + suffix)[..|ch|] == ch;
    IntToStringRoundTrip(channel);
  }

  /** The status command is not a toggle command. */
  lemma StatusCommandIsNoToggle()
    ensures ParseToggle(Const.StatusCommand) == None
  {
  }

  // ---------------------------------------------------------------------------
  // Reading a channel's state from the stored reply

  /** Indexing a string with a channel number that lies outside it. */
  datatype StatusError = IndexOutOfRange

  /** Python's index into a string of length n: negative indices count from the end. */
  function PyIndex(n: nat, i: int): (k: nat)
    requires -(n as int) <= i < n
    ensures k < n
  {
    if i < 0 then n + i else i
  }

  /**
   * `get_status` on the stored reply: no reply reads as off; otherwise the
   * character at the channel's index decides, '1' meaning on, and an index
   * outside the reply is an error.
   */
  function StatusAt(data: Option<string>, channel: int): (r: Result<bool, StatusError>)
    ensures data.None? ==> r == Success(false)
    ensures data.Some? ==> (r.Failure? <==> channel < -|data.value| || |data.value| <= channel)
    ensures r == Success(true) ==> data.Some? && '1' in data.value
  {
    match data
    case None => Success(false)
    case Some(s) =>
      if -|s| <= channel < |s| then Success(s[PyIndex(|s|, channel)] == '1')
      else Failure(IndexOutOfRange)
  }

  /** A board reply listing channel states, one byte '1' (on) or '0' (off) each. */
  function Snapshot(states: seq<bool>): (b: seq<byte>)
    ensures |b| == |states|
    ensures forall k :: 0 <= k < |b| ==> b[k] == if states[k] then 49 else 48
  {
    seq(|states|, k requires 0 <= k < |states| => if states[k] then 49 else 48)
  }

  /**
   * What the client reads from a stored snapshot reply: character `c` of the
   * stored text is state `c - 2` of the board, so indices 0 and 1 (the 'b'
   * and the opening quote) and the closing quote always read as off.
   */
  lemma SnapshotStatus(states: seq<bool>)
    ensures var data := Some(Repr(Snapshot(states)));
      && StatusAt(data, 0) == Success(false)
      && StatusAt(data, 1) == Success(false)
      && StatusAt(data, |states| + 2) == Success(false)
      && StatusAt(data, |states| + 3) == Failure(IndexOutOfRange)
      && forall c :: 0 <= c < |states| ==> StatusAt(data, c + 2) == Success(states[c])
  {
    var b := Snapshot(states);
    ReprOfPrintable(b);
  }

  /**
   * For a reply of printable bytes, index k + 2 of the stored text reads on
   * exactly when reply byte k is '1'; any other byte reads off.
   */
  lemma StatusOfPrintableReply(b: seq<byte>, k: int)
    requires AllPrintable(b) && 0 <= k < |b|
    ensures StatusAt(Some(Repr(b)), k + 2) == Success(b[k] == 49)
  {
    ReprOfPrintable(b);
  }

  /** Whatever bytes the board sends, indices 0, 1 and -1 of the stored reply read as off. */
  lemma StoredReplyEdgesReadOff(b: seq<byte>)
    ensures StatusAt(Some(Repr(b)), 0) == Success(false)
    ensures StatusAt(Some(Repr(b)), 1) == Success(false)
    ensures StatusAt(Some(Repr(b)), -1) == Success(false)
  {
  }
}
