/**
 * Lurker's content callbacks (Lurker::Impl in src/Lurker.cpp): each turns one
 * protocol event into one diagnostic.  A handler's text is what its printf
 * format writes: `%s` of a `c_str()` is `CStr`, `%zu` is `NatToDecimal`,
 * `%d` is `IntToDecimal`, and the formats that open with `[%s]` share
 * `Tagged`.  The lemmas below state what a reader of the published lines
 * can rely on: how a line is decoded back into its channel and fields, which
 * level each kind of event gets, and which event fields a line ignores.
 */
module Formatter {
  import opened Text
  import opened Events

  /** The size of FormatTimestamp's character buffer, terminating NUL included. */
  const TIMESTAMP_BUFFER: nat := 13

  /** The width of the "%T" clock text at the start of that buffer. */
  const CLOCK_WIDTH: nat := 8

  /**
   * FormatTimestamp: the clock text of `time` followed by what
   * `sprintf(buffer + 8, ".%03u", milliseconds)` writes.  None when that
   * text and its NUL do not fit the buffer, which is undefined behaviour.
   */
  function FormatTimestamp(clock: int -> ClockText, time: int, milliseconds: UInt32): Option<string> {
    var suffix := "." + ZeroPadded(milliseconds, 3);
    if CLOCK_WIDTH + |suffix| + 1 <= TIMESTAMP_BUFFER then Some(clock(time) + suffix) else None
  }

  /** The `[%s]` opening of a format followed by the rest of the text. */
  function Tagged(tag: string, rest: string): string {
    "[" + tag + "]" + rest
  }

  function DoomLine(): Diagnostic {
    Diagnostic(2, "** SERVER DISCONNECT IMMINENT **")
  }

  /** The text of a Join line after its `[channel]` opening. */
  function JoinRest(m: MembershipInfo): string {
    " +" + CStr(m.user)
  }

  function JoinLine(m: MembershipInfo): Diagnostic {
    Diagnostic(1, Tagged(CStr(m.channel), JoinRest(m)))
  }

  /** The text of a Leave line after its `[channel]` opening. */
  function LeaveRest(m: MembershipInfo): string {
    " -" + CStr(m.user)
  }

  function LeaveLine(m: MembershipInfo): Diagnostic {
    Diagnostic(1, Tagged(CStr(m.channel), LeaveRest(m)))
  }

  /** The name a chat line shows: the display name, or the raw user name when that is empty. */
  function UserDisplayName(info: MessageInfo): string {
    if info.displayName == [] then info.user else info.displayName
  }

  /** The rest of a chat line after its tag: the shown name and the message. */
  function MessageBody(info: MessageInfo): string {
    " " + CStr(UserDisplayName(info)) + ": " + CStr(info.messageContent)
  }

  function MessageLine(info: MessageInfo, clock: int -> ClockText): Option<Diagnostic> {
    match FormatTimestamp(clock, info.timestamp, info.timeMilliseconds)
    case None => None
    case Some(timestamp) =>
      Some(Diagnostic(1, Tagged(CStr(timestamp) + " " + CStr(info.channel), MessageBody(info))))
  }

  /** The text around a notice's id and message. */
  const NOTICE_OPEN: string := "** Server NOTICE "
  const NOTICE_CLOSE: string := " **"

  function NoticeLine(n: NoticeInfo): Diagnostic {
    Diagnostic(1, NOTICE_OPEN + CStr(n.id) + ": " + CStr(n.message) + NOTICE_CLOSE)
  }

  /** The text of a host line after its `[hosting]` opening. */
  function HostRest(h: HostInfo): string {
    if h.on then " Now hosting " + CStr(h.beingHosted) + " (" + NatToDecimal(h.viewers) + " viewers)"
    else " No longer hosting anyone"
  }

  function HostLine(h: HostInfo): Diagnostic {
    Diagnostic(1, Tagged(CStr(h.hosting), HostRest(h)))
  }

  /** The text of a room-mode line after its `[channel]` opening. */
  function RoomModeRest(r: RoomModeChangeInfo): string {
    " Room mode " + CStr(r.mode) + ": " + IntToDecimal(r.parameter)
  }

  function RoomModeChangeLine(r: RoomModeChangeInfo): Diagnostic {
    Diagnostic(1, Tagged(CStr(r.channelName), RoomModeRest(r)))
  }

  /** The text of a clear line after its `[channel]` opening, by clear type. */
  function ClearRest(c: ClearInfo): string {
    match c.clearType
    case ClearAll => " ** CLEAR CHAT **"
    case ClearMessage =>
      " Message from " + CStr(c.user) + " has been deleted (was \"" + CStr(c.offendingMessageContent) + "\")"
    case Timeout =>
      " User " + CStr(c.user) + " has been timed out for " + NatToDecimal(c.duration)
      + " seconds; reason: " + CStr(c.reason)
    case Ban =>
      " User " + CStr(c.user) + " has been banned from the channel; reason: " + CStr(c.reason)
    case OtherClear(_) => " ** Unknown type of clear announcement **"
  }

  /** An unknown clear type is reported as an error. */
  function ClearLine(c: ClearInfo): Diagnostic {
    Diagnostic(if c.clearType.OtherClear? then ERROR else 1, Tagged(CStr(c.channel), ClearRest(c)))
  }

  /** The text of a subscription line after its `[channel]` opening, by subscription type. */
  function SubRest(s: SubInfo): string {
    match s.subType
    case Sub =>
      " SUB (new: " + CStr(s.planName) + ") " + CStr(s.user) + ": " + CStr(s.systemMessage)
      + " [" + CStr(s.userMessage) + "]"
    case Resub =>
      " SUB (renew " + NatToDecimal(s.months) + ": " + CStr(s.planName) + ") " + CStr(s.user) + ": "
      + CStr(s.systemMessage) + " [" + CStr(s.userMessage) + "]"
    case Gifted =>
      " SUB (gift from " + CStr(s.user) + " [" + NatToDecimal(s.senderCount) + " sent total]: "
      + CStr(s.planName) + ") " + CStr(s.recipientDisplayName) + ": " + CStr(s.systemMessage)
      + " [" + CStr(s.userMessage) + "]"
    case MysteryGift =>
      " SUB (mystery gift to " + NatToDecimal(s.massGiftCount) + " users from " + CStr(s.user)
      + " [" + NatToDecimal(s.senderCount) + " sent total]) " + CStr(s.systemMessage)
      + " [" + CStr(s.userMessage) + "]"
    case _ => " ** Unknown type of sub announcement **"
  }

  /** `Unknown`, like any value outside the named types, is reported as an error. */
  function SubLine(s: SubInfo): Diagnostic {
    Diagnostic(if s.subType.Unknown? || s.subType.OtherSub? then ERROR else 1, Tagged(CStr(s.channel), SubRest(s)))
  }

  /** The diagnostic Lurker publishes for one event; `clock` is the process's local time zone. */
  function Format(e: Event, clock: int -> ClockText): Option<Diagnostic> {
    match e
    case Doom => Some(DoomLine())
    case Join(m) => Some(JoinLine(m))
    case Leave(m) => Some(LeaveLine(m))
    case Message(info) => MessageLine(info, clock)
    case Notice(n) => Some(NoticeLine(n))
    case Host(h) => Some(HostLine(h))
    case RoomModeChange(r) => Some(RoomModeChangeLine(r))
    case Clear(c) => Some(ClearLine(c))
    case Subscription(s) => Some(SubLine(s))
  }

  // ---------------------------------------------------------------------
  // Decoding published lines.

  /** Cuts `s` at its first `c`: the text before it and the text after it. */
  function CutAt(s: string, c: char): (r: Option<(string, string)>)
    ensures r.None? <==> c !in s
    ensures r.Some? ==> s == r.value.0 + [c] + r.value.1 && c !in r.value.0
  {
    if s == [] then None
    else if s[0] == c then Some(([], s[1..]))
    else match CutAt(s[1..], c)
      case None => None
      case Some((before, after)) => Some(([s[0]] + before, after))
  }

  /** Splits a line that opens with a `[...]` tag into the tag and the rest. */
  function SplitTag(line: string): (r: Option<(string, string)>)
    ensures r.Some? ==> line == Tagged(r.value.0, r.value.1) && ']' !in r.value.0
  {
    if line != [] && line[0] == '[' then CutAt(line[1..], ']') else None
  }

  /** Cutting a text at a character it reaches only after `before` gives back `before`. */
  lemma {:induction false} CutAtFirst(before: string, c: char, after: string)
    requires c !in before
    ensures CutAt(before + [c] + after, c) == Some((before, after))
  {
    var s := before + [c] + after;
    if before == [] {
      assert s == [c] + after;
      assert s[0] == c && s[1..] == after;
    } else {
      assert s[0] == before[0] && s[0] != c;
      assert s[1..] == before[1..] + [c] + after;
      CutAtFirst(before[1..], c, after);
      assert [before[0]] + before[1..] == before;
    }
  }

  /** A tag without a closing bracket in it is read back from its line. */
  lemma TaggedRoundTrip(tag: string, rest: string)
    requires ']' !in tag
    ensures SplitTag(Tagged(tag, rest)) == Some((tag, rest))
  {
    assert Tagged(tag, rest)[1..] == tag + [']'] + rest;
    CutAtFirst(tag, ']', rest);
  }

  /**
   * The channel an event's line is tagged with: the channel of membership,
   * room mode, clear and sub events, the hosting channel of host events.
   */
  function TagChannel(e: Event): Option<string> {
    match e
    case Join(m) => Some(m.channel)
    case Leave(m) => Some(m.channel)
    case Host(h) => Some(h.hosting)
    case RoomModeChange(r) => Some(r.channelName)
    case Clear(c) => Some(c.channel)
    case Subscription(s) => Some(s.channel)
    case _ => None
  }

  /** The banner opening of the server's own announcements. */
  predicate IsBanner(text: string) {
    |text| >= 3 && text[..3] == "** "
  }

  /**
   * What a reader can take from a `[tag]` line: it opens with a bracket,
   * is no banner, splits at its first closing bracket, and that split gives
   * back the tag whenever the tag has no closing bracket of its own.
   */
  predicate TaggedBy(text: string, tag: string) {
    && |text| >= 1 && text[0] == '[' && !IsBanner(text)
    && SplitTag(text).Some?
    && (']' !in tag ==> SplitTag(text).value.0 == tag)
  }

  lemma TaggedFacts(tag: string, rest: string)
    ensures TaggedBy(Tagged(tag, rest), tag)
  {
    var text := Tagged(tag, rest);
    assert text[1..] == tag + [']'] + rest;
    assert text[0] == '[';
    if |text| >= 3 {
      assert text[..3][0] == '[';
    }
    if ']' !in tag {
      TaggedRoundTrip(tag, rest);
    }
  }

  /** The line of an event with a channel is a `[channel]` line. */
  lemma EventTagged(e: Event, clock: int -> ClockText)
    requires TagChannel(e).Some?
    ensures Format(e, clock).Some?
    ensures TaggedBy(Format(e, clock).value.text, CStr(TagChannel(e).value))
  {
    match e
    case Join(m) => TaggedFacts(CStr(m.channel), JoinRest(m));
    case Leave(m) => TaggedFacts(CStr(m.channel), LeaveRest(m));
    case Host(h) => TaggedFacts(CStr(h.hosting), HostRest(h));
    case RoomModeChange(r) => TaggedFacts(CStr(r.channelName), RoomModeRest(r));
    case Clear(c) => TaggedFacts(CStr(c.channel), ClearRest(c));
    case Subscription(s) => TaggedFacts(CStr(s.channel), SubRest(s));
  }

  /** s ends with t. */
  predicate EndsWith(s: string, t: string) {
    |t| <= |s| && s[|s| - |t|..] == t
  }

  lemma EndsWithAppend(a: string, t: string)
    ensures EndsWith(a + t, t)
  {
    assert (a + t)[|a + t| - |t|..] == t;
  }

  lemma EndsWithExtend(a: string, s: string, t: string)
    requires EndsWith(s, t)
    ensures EndsWith(a + s, t)
  {
    assert (a + s)[|a + s| - |t|..] == s[|s| - |t|..];
  }

  // ---------------------------------------------------------------------
  // Properties of the published lines.

  /**
   * The timestamp is the clock text, a dot and three millisecond digits:
   * it fits the buffer exactly when the milliseconds are below 1000, is then
   * twelve characters long, and its last three read back as the milliseconds.
   */
  lemma TimestampLayout(clock: int -> ClockText, time: int, milliseconds: UInt32)
    ensures FormatTimestamp(clock, time, milliseconds).Some? <==> milliseconds < 1000
    ensures milliseconds < 1000 ==>
      var t := FormatTimestamp(clock, time, milliseconds).value;
      && |t| == 12 && t[..8] == clock(time) && t[8] == '.'
      && AllDigits(t[9..]) && DecimalValue(t[9..]) == milliseconds
      && '\0' !in t && ']' !in t
  {
    ZeroPadded3(milliseconds);
    if milliseconds < 1000 {
      var c := clock(time);
      var d := ZeroPadded(milliseconds, 3);
      var t := c + ("." + d);
      assert FormatTimestamp(clock, time, milliseconds) == Some(t);
      assert t[9..] == d;
      assert t[..8] == c;
      assert forall i :: 0 <= i < |t| ==> IsDigit(t[i]) || t[i] == ':' || t[i] == '.' by {
        forall i | 0 <= i < |t|
          ensures IsDigit(t[i]) || t[i] == ':' || t[i] == '.'
        {
          if i < 8 {
            assert t[i] == c[i];
          } else if i > 8 {
            assert t[i] == d[i - 9];
          }
        }
      }
    }
  }

  /** Only a chat message whose milliseconds overrun the timestamp buffer has no defined line. */
  lemma FormatDefined(e: Event, clock: int -> ClockText)
    ensures Format(e, clock).Some? <==> EventWellFormed(e)
  {
    if e.Message? {
      TimestampLayout(clock, e.message.timestamp, e.message.timeMilliseconds);
    }
  }

  /**
   * Levels: the disconnect warning is published at level 2, clear and sub
   * announcements of an unrecognised type at ERROR, everything else at 1.
   */
  lemma LevelPolicy(e: Event, clock: int -> ClockText)
    requires EventWellFormed(e)
    ensures Format(e, clock).Some?
    ensures Format(e, clock).value.level == 2 <==> e.Doom?
    ensures Format(e, clock).value.level == ERROR <==> IsUnknownSubtype(e)
    ensures Format(e, clock).value.level == 1 <==> !e.Doom? && !IsUnknownSubtype(e)
  {
    FormatDefined(e, clock);
  }

  /**
   * Every line of an event with a channel opens with that channel in
   * brackets, and reading the tag back gives the channel as printf shows it.
   */
  lemma ChannelTag(e: Event, clock: int -> ClockText)
    requires TagChannel(e).Some? && ']' !in TagChannel(e).value
    ensures Format(e, clock).Some?
    ensures SplitTag(Format(e, clock).value.text).Some?
    ensures SplitTag(Format(e, clock).value.text).value.0 == CStr(TagChannel(e).value)
  {
    EventTagged(e, clock);
    CStrOmits(TagChannel(e).value, ']');
  }

  /**
   * A chat line's tag is the twelve-character timestamp, a space and the
   * channel; after the tag come the shown name and the message.
   */
  lemma MessageTag(info: MessageInfo, clock: int -> ClockText)
    requires info.timeMilliseconds < 1000 && ']' !in info.channel
    ensures FormatTimestamp(clock, info.timestamp, info.timeMilliseconds).Some?
    ensures MessageLine(info, clock).Some?
    ensures
      var t := FormatTimestamp(clock, info.timestamp, info.timeMilliseconds).value;
      SplitTag(MessageLine(info, clock).value.text) == Some((t + " " + CStr(info.channel), MessageBody(info)))
  {
    TimestampLayout(clock, info.timestamp, info.timeMilliseconds);
    var t := FormatTimestamp(clock, info.timestamp, info.timeMilliseconds).value;
    CStrOfPlain(t);
    CStrOmits(info.channel, ']');
    var tag := t + " " + CStr(info.channel);
    assert ']' !in tag by {
      assert forall i :: 0 <= i < |tag| ==> tag[i] != ']' by {
        forall i | 0 <= i < |tag|
          ensures tag[i] != ']'
        {
          if i < |t| {
            assert tag[i] == t[i];
          } else if i > |t| {
            assert tag[i] == CStr(info.channel)[i - |t| - 1];
          }
        }
      }
    }
    assert MessageLine(info, clock).value.text == Tagged(tag, MessageBody(info));
    TaggedRoundTrip(tag, MessageBody(info));
  }

  /** A chat line shows the display name whenever there is one, whatever the user name. */
  lemma DisplayNameShadowsUser(info: MessageInfo, user: string, clock: int -> ClockText)
    requires info.displayName != []
    ensures MessageLine(info.(user := user), clock) == MessageLine(info, clock)
  {
  }

  /** Without a display name a chat line shows the user name in its place. */
  lemma UserNameFallback(info: MessageInfo, clock: int -> ClockText)
    requires info.displayName == []
    ensures MessageLine(info, clock) == MessageLine(info.(displayName := info.user), clock)
  {
  }

  /** The direction and the two names a membership line carries. */
  datatype MembershipChange = MembershipChange(joined: bool, channel: string, user: string)

  /** Reads a membership line: `[channel] +user` for a join, `[channel] -user` for a leave. */
  function ParseMembership(line: string): (r: Option<MembershipChange>)
    ensures r.Some? ==> line == Tagged(r.value.channel, " " + (if r.value.joined then "+" else "-") + r.value.user)
  {
    match SplitTag(line)
    case None => None
    case Some((channel, rest)) =>
      if |rest| >= 2 && rest[0] == ' ' && (rest[1] == '+' || rest[1] == '-') then
        assert rest == " " + (if rest[1] == '+' then "+" else "-") + rest[2..];
        Some(MembershipChange(rest[1] == '+', channel, rest[2..]))
      else None
  }

  /** A join line reads back as a join of that user to that channel. */
  lemma JoinRoundTrip(m: MembershipInfo)
    requires ']' !in m.channel
    ensures ParseMembership(JoinLine(m).text) == Some(MembershipChange(true, CStr(m.channel), CStr(m.user)))
  {
    CStrOmits(m.channel, ']');
    TaggedRoundTrip(CStr(m.channel), JoinRest(m));
    assert JoinRest(m)[2..] == CStr(m.user);
  }

  /** A leave line reads back as a departure of that user from that channel. */
  lemma LeaveRoundTrip(m: MembershipInfo)
    requires ']' !in m.channel
    ensures ParseMembership(LeaveLine(m).text) == Some(MembershipChange(false, CStr(m.channel), CStr(m.user)))
  {
    CStrOmits(m.channel, ']');
    TaggedRoundTrip(CStr(m.channel), LeaveRest(m));
    assert LeaveRest(m)[2..] == CStr(m.user);
  }

  /** No join line reads like a leave line, for channels without a closing bracket. */
  lemma JoinLeaveDistinct(m1: MembershipInfo, m2: MembershipInfo)
    requires ']' !in m1.channel && ']' !in m2.channel
    ensures JoinLine(m1) != LeaveLine(m2)
  {
    JoinRoundTrip(m1);
    LeaveRoundTrip(m2);
  }

  /** Host lines: an "off" line names only the hosting channel. */
  lemma HostOffIgnoresTarget(h1: HostInfo, h2: HostInfo)
    requires !h1.on && !h2.on && h1.hosting == h2.hosting
    ensures HostLine(h1) == HostLine(h2)
  {
  }

  /** An "on" host line ends with the viewer count. */
  lemma HostOnShowsViewers(h: HostInfo)
    requires h.on
    ensures EndsWith(HostLine(h).text, " (" + NatToDecimal(h.viewers) + " viewers)")
  {
    var a := " Now hosting " + CStr(h.beingHosted);
    var b := " (" + NatToDecimal(h.viewers) + " viewers)";
    assert HostRest(h) == a + b;
    assert HostLine(h).text == Tagged(CStr(h.hosting), a + b);
    EndsWithAppend(a, b);
    EndsWithExtend("[" + CStr(h.hosting) + "]", a + b, b);
  }

  /** An "on" host line is never mistaken for an "off" one: they end differently. */
  lemma HostOnOffDiffer(h1: HostInfo, h2: HostInfo)
    requires h1.on && !h2.on
    ensures HostLine(h1) != HostLine(h2)
  {
    var t1 := HostLine(h1).text;
    var t2 := HostLine(h2).text;
    assert t1[|t1| - 1] == ')';
    assert t2[|t2| - 1] == 'e';
  }

  /** A room mode line ends with the mode's parameter, which reads back as the number. */
  lemma RoomModeParameter(r: RoomModeChangeInfo)
    ensures EndsWith(RoomModeChangeLine(r).text, ": " + IntToDecimal(r.parameter))
    ensures SignedDecimalValue(IntToDecimal(r.parameter)) == r.parameter
  {
    var a := " Room mode " + CStr(r.mode);
    var b := ": " + IntToDecimal(r.parameter);
    assert RoomModeChangeLine(r).text == Tagged(CStr(r.channelName), a + b);
    EndsWithAppend(a, b);
    EndsWithExtend("[" + CStr(r.channelName) + "]", a + b, b);
    SignedRoundTrip(r.parameter);
  }

  /** A timeout line always ends with the duration and the reason clause, even when the reason is empty. */
  lemma TimeoutReason(c: ClearInfo)
    requires c.clearType.Timeout?
    ensures EndsWith(ClearLine(c).text, NatToDecimal(c.duration) + " seconds; reason: " + CStr(c.reason))
  {
    var a := " User " + CStr(c.user) + " has been timed out for ";
    var b := NatToDecimal(c.duration) + " seconds; reason: " + CStr(c.reason);
    assert ClearRest(c) == a + b;
    assert ClearLine(c).text == Tagged(CStr(c.channel), a + b);
    EndsWithAppend(a, b);
    EndsWithExtend("[" + CStr(c.channel) + "]", a + b, b);
  }

  /** A ban line always ends with the reason clause, even when the reason is empty. */
  lemma BanReason(c: ClearInfo)
    requires c.clearType.Ban?
    ensures EndsWith(ClearLine(c).text, " has been banned from the channel; reason: " + CStr(c.reason))
  {
    var a := " User " + CStr(c.user);
    var b := " has been banned from the channel; reason: " + CStr(c.reason);
    assert ClearRest(c) == a + b;
    assert ClearLine(c).text == Tagged(CStr(c.channel), a + b);
    EndsWithAppend(a, b);
    EndsWithExtend("[" + CStr(c.channel) + "]", a + b, b);
  }

  /** A clear announcement of an unrecognised type shows nothing but its channel. */
  lemma UnknownClearShowsOnlyChannel(c1: ClearInfo, c2: ClearInfo)
    requires c1.clearType.OtherClear? && c2.clearType.OtherClear? && c1.channel == c2.channel
    ensures ClearLine(c1) == ClearLine(c2)
  {
  }

  /** A sub announcement of an unrecognised type shows nothing but its channel. */
  lemma UnknownSubShowsOnlyChannel(s1: SubInfo, s2: SubInfo)
    requires IsUnknownSubtype(Subscription(s1)) && IsUnknownSubtype(Subscription(s2)) && s1.channel == s2.channel
    ensures SubLine(s1) == SubLine(s2)
  {
  }

  /** The text between an expected opening and closing, if `line` has both. */
  function StripAround(line: string, open: string, close: string): (r: Option<string>)
    ensures r.Some? ==> line == open + r.value + close
  {
    var n := |line|;
    if n >= |open| + |close| && line[..|open|] == open && line[n - |close|..] == close then
      var body := line[|open|..n - |close|];
      assert line == line[..|open|] + body + line[n - |close|..];
      Some(body)
    else None
  }

  lemma StripAroundRoundTrip(open: string, body: string, close: string)
    ensures StripAround(open + body + close, open, close) == Some(body)
  {
    var line := open + body + close;
    assert line[..|open|] == open;
    assert line[|line| - |close|..] == close;
    assert line[|open|..|line| - |close|] == body;
  }

  /** Cuts `text` at its first ": ", if the first ':' is followed by a space. */
  function CutSeparator(text: string): (r: Option<(string, string)>)
    ensures r.Some? ==> text == r.value.0 + ": " + r.value.1 && ':' !in r.value.0
  {
    match CutAt(text, ':')
    case None => None
    case Some((before, after)) =>
      if |after| >= 1 && after[0] == ' ' then
        assert after == " " + after[1..];
        assert text == before + ": " + after[1..];
        Some((before, after[1..]))
      else None
  }

  lemma CutSeparatorRoundTrip(before: string, after: string)
    requires ':' !in before
    ensures CutSeparator(before + ": " + after) == Some((before, after))
  {
    assert before + ": " + after == before + [':'] + (" " + after);
    CutAtFirst(before, ':', " " + after);
    assert (" " + after)[1..] == after;
  }

  /** Reads a notice line `** Server NOTICE id: message **` back into its id and message. */
  function ParseNotice(line: string): (r: Option<(string, string)>)
    ensures r.Some? ==>
      && line == NOTICE_OPEN + (r.value.0 + ": " + r.value.1) + NOTICE_CLOSE
      && ':' !in r.value.0
  {
    match StripAround(line, NOTICE_OPEN, NOTICE_CLOSE)
    case None => None
    case Some(body) => CutSeparator(body)
  }

  /** A notice line reads back as its id and message, when the id holds no ':'. */
  lemma NoticeRoundTrip(n: NoticeInfo)
    requires ':' !in n.id
    ensures ParseNotice(NoticeLine(n).text) == Some((CStr(n.id), CStr(n.message)))
  {
    var body := CStr(n.id) + ": " + CStr(n.message);
    assert NoticeLine(n).text == NOTICE_OPEN + body + NOTICE_CLOSE;
    StripAroundRoundTrip(NOTICE_OPEN, body, NOTICE_CLOSE);
    CStrOmits(n.id, ':');
    CutSeparatorRoundTrip(CStr(n.id), CStr(n.message));
  }

  lemma NoticeBanner(n: NoticeInfo)
    ensures IsBanner(NoticeLine(n).text)
  {
    var text := NoticeLine(n).text;
    assert text == NOTICE_OPEN + (CStr(n.id) + ": " + CStr(n.message) + NOTICE_CLOSE);
    assert text[..3] == "** ";
  }

  /**
   * Every event line opens with a bracket or with the `** ` of the server
   * banners; the disconnect warning and notices are the banner lines.
   */
  lemma LineOpening(e: Event, clock: int -> ClockText)
    requires EventWellFormed(e)
    ensures Format(e, clock).Some?
    ensures |Format(e, clock).value.text| >= 1
    ensures (e.Doom? || e.Notice?) <==> IsBanner(Format(e, clock).value.text)
    ensures !(e.Doom? || e.Notice?) <==> Format(e, clock).value.text[0] == '['
  {
    FormatDefined(e, clock);
    match e
    case Doom =>
      assert DoomLine().text[..3] == "** ";
    case Notice(n) =>
      NoticeBanner(n);
    case Message(info) =>
      var t := FormatTimestamp(clock, info.timestamp, info.timeMilliseconds).value;
      TaggedFacts(CStr(t) + " " + CStr(info.channel), MessageBody(info));
    case _ =>
      EventTagged(e, clock);
  }
}
