/**
 * The protocol events the chat engine hands to Lurker's callbacks (only the
 * fields Lurker reads), and the diagnostic messages Lurker publishes.
 */
module Events {
  import opened Text

  /** A published diagnostic: severity level and text. Every sender in this program is named "Lurker". */
  datatype Diagnostic = Diagnostic(level: nat, text: string)

  /** The diagnostics library's error level (DiagnosticsSender::Levels::ERROR). */
  const ERROR: nat := 10

  /** What `strftime("%T", localtime(&t))` writes: HH:MM:SS, eight digits and colons. */
  type ClockText = s: string | |s| == 8 && forall i :: 0 <= i < |s| ==> IsDigit(s[i]) || s[i] == ':'
    witness "00:00:00"

  datatype MembershipInfo = MembershipInfo(channel: string, user: string)

  datatype MessageInfo = MessageInfo(
    channel: string,
    user: string,
    displayName: string,        // tags.displayName, empty when absent
    timestamp: int,             // tags.timestamp, seconds since the UNIX epoch
    timeMilliseconds: UInt32,   // tags.timeMilliseconds
    messageContent: string)

  datatype NoticeInfo = NoticeInfo(id: string, message: string)

  datatype HostInfo = HostInfo(on: bool, hosting: string, beingHosted: string, viewers: SizeT)

  datatype RoomModeChangeInfo = RoomModeChangeInfo(channelName: string, mode: string, parameter: Int32)

  /** ClearInfo::Type; OtherClear stands for any value outside the named ones. */
  datatype ClearType = ClearAll | ClearMessage | Timeout | Ban | OtherClear(code: int)

  datatype ClearInfo = ClearInfo(
    clearType: ClearType,
    channel: string,
    user: string,
    offendingMessageContent: string,
    duration: SizeT,
    reason: string)

  /** SubInfo::Type; OtherSub stands for any value outside the named ones. */
  datatype SubType = Unknown | Sub | Resub | Gifted | MysteryGift | OtherSub(code: int)

  datatype SubInfo = SubInfo(
    subType: SubType,
    channel: string,
    user: string,
    planName: string,
    systemMessage: string,
    userMessage: string,
    months: SizeT,
    senderCount: SizeT,
    recipientDisplayName: string,
    massGiftCount: SizeT)

  /** One content callback of Twitch::Messaging::User, with its argument. */
  datatype Event =
    | Doom
    | Join(membership: MembershipInfo)
    | Leave(membership: MembershipInfo)
    | Message(message: MessageInfo)
    | Notice(notice: NoticeInfo)
    | Host(host: HostInfo)
    | RoomModeChange(roomMode: RoomModeChangeInfo)
    | Clear(clear: ClearInfo)
    | Subscription(sub: SubInfo)

  /**
   * The engine reports the sub-second part of a message's time, below 1000;
   * a larger count would overrun FormatTimestamp's buffer.
   */
  predicate EventWellFormed(e: Event) {
    e.Message? ==> e.message.timeMilliseconds < 1000
  }

  /** The subtypes the Clear and Sub handlers do not recognise. */
  predicate IsUnknownSubtype(e: Event) {
    || (e.Clear? && e.clear.clearType.OtherClear?)
    || (e.Subscription? && (e.sub.subType.Unknown? || e.sub.subType.OtherSub?))
  }
}
