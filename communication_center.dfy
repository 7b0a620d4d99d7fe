/**
 * The messaging view (`CommunicationCenter` component): announcements to
 * groups, direct messages, and the summary cards over both.
 */
module CommunicationCenter {
  import opened Wrappers
  import opened Seqs
  import opened Styles

  datatype Audience = Everyone | Students | Parents | Teachers

  datatype AnnouncementStatus = Draft | Sent | Scheduled

  function AnnouncementStatusName(s: AnnouncementStatus): string {
    match s
    case Draft => "draft"
    case Sent => "sent"
    case Scheduled => "scheduled"
  }

  datatype MessageStatus = Unread | Read | Replied

  function MessageStatusName(s: MessageStatus): string {
    match s
    case Unread => "unread"
    case Read => "read"
    case Replied => "replied"
  }

  /** The `Announcement` record; `scheduledFor` is optional. */
  datatype Announcement = Announcement(
    id: int,
    title: string,
    content: string,
    priority: Priority,
    targetAudience: Audience,
    status: AnnouncementStatus,
    createdAt: string,
    scheduledFor: Option<string>,
    readCount: int,
    totalRecipients: int)

  /** The `Message` record; `attachments` is optional. */
  datatype Message = Message(
    id: int,
    from: string,
    to: string,
    subject: string,
    content: string,
    timestamp: string,
    status: MessageStatus,
    priority: Priority,
    attachments: Option<seq<string>>)

  /** The "Unread Messages" card: `messages.filter(m => m.status === 'unread').length`. */
  function UnreadCount(messages: seq<Message>): (n: nat)
    ensures n <= |messages|
  {
    Count(messages, (m: Message) => m.status == Unread)
  }

  /** The "Scheduled" card: `announcements.filter(a => a.status === 'scheduled').length`. */
  function ScheduledCount(announcements: seq<Announcement>): (n: nat)
    ensures n <= |announcements|
  {
    Count(announcements, (a: Announcement) => a.status == Scheduled)
  }

  /** Only unread messages count: the card is the total exactly when every message is unread. */
  lemma {:induction false} UnreadCountIsTotalIff(messages: seq<Message>)
    ensures UnreadCount(messages) == |messages| <==> forall i | 0 <= i < |messages| :: messages[i].status == Unread
  {
    if messages != [] {
      CountCons(messages, (m: Message) => m.status == Unread);
      UnreadCountIsTotalIff(messages[1..]);
      assert forall i | 1 <= i < |messages| :: messages[i] == messages[1..][i - 1];
    }
  }

  /** No announcement is scheduled exactly when the card shows 0. */
  lemma {:induction false} ScheduledCountIsZeroIff(announcements: seq<Announcement>)
    ensures ScheduledCount(announcements) == 0 <==> forall i | 0 <= i < |announcements| :: announcements[i].status != Scheduled
  {
    if announcements != [] {
      CountCons(announcements, (a: Announcement) => a.status == Scheduled);
      ScheduledCountIsZeroIff(announcements[1..]);
      assert forall i | 1 <= i < |announcements| :: announcements[i] == announcements[1..][i - 1];
    }
  }

  /** `announcement.totalRecipients`, as a function value for the reduce. */
  function RecipientsOf(a: Announcement): int {
    a.totalRecipients
  }

  /** The "Total Recipients" card: `announcements.reduce((acc, a) => acc + a.totalRecipients, 0)`. */
  function TotalRecipients(announcements: seq<Announcement>): (n: int)
    ensures announcements == [] ==> n == 0
  {
    Sum(announcements, RecipientsOf)
  }

  /** The card adds up over a concatenation of lists. */
  lemma TotalRecipientsAppend(xs: seq<Announcement>, ys: seq<Announcement>)
    ensures TotalRecipients(xs + ys) == TotalRecipients(xs) + TotalRecipients(ys)
  {
    SumAppend(xs, ys, RecipientsOf);
  }

  /** With non-negative recipient counts the total is at least each announcement's own count. */
  lemma {:induction false} TotalRecipientsCoversEach(announcements: seq<Announcement>, i: int)
    requires forall j | 0 <= j < |announcements| :: announcements[j].totalRecipients >= 0
    requires 0 <= i < |announcements|
    ensures 0 <= announcements[i].totalRecipients <= TotalRecipients(announcements)
  {
    assert announcements == announcements[..i] + announcements[i..];
    TotalRecipientsAppend(announcements[..i], announcements[i..]);
    SumNonNegative(announcements[..i], RecipientsOf);
    assert announcements[i..] == [announcements[i]] + announcements[i + 1..];
    TotalRecipientsAppend([announcements[i]], announcements[i + 1..]);
    SumNonNegative(announcements[i + 1..], RecipientsOf);
  }

  /** `getStatusColor`, shared by announcements and messages; anything else is gray. */
  function StatusColor(status: string): (c: string)
    ensures c == OrangeBadge <==> status == "scheduled"
    ensures c == BlueBadge <==> status in {"sent", "unread"}
    ensures c == GreenBadge <==> status == "read"
    ensures c == PurpleBadge <==> status == "replied"
    ensures c == GrayBadge <==> status !in {"sent", "scheduled", "unread", "read", "replied"}
  {
    match status
    case "draft" => GrayBadge
    case "sent" => BlueBadge
    case "scheduled" => OrangeBadge
    case "unread" => BlueBadge
    case "read" => GreenBadge
    case "replied" => PurpleBadge
    case _ => GrayBadge
  }

  /** Every message status gets its own colour, and none of them is gray. */
  lemma MessageStatusColorsDistinct(a: MessageStatus, b: MessageStatus)
    ensures StatusColor(MessageStatusName(a)) != GrayBadge
    ensures a != b ==> StatusColor(MessageStatusName(a)) != StatusColor(MessageStatusName(b))
  {
  }

  /** Sent and scheduled announcements get distinct colours; a draft is gray like an unknown status. */
  lemma AnnouncementStatusColors(a: AnnouncementStatus)
    ensures StatusColor(AnnouncementStatusName(a)) == GrayBadge <==> a == Draft
    ensures StatusColor(AnnouncementStatusName(Sent)) != StatusColor(AnnouncementStatusName(Scheduled))
  {
  }
}
