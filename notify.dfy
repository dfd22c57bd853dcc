/**
 * The chat notifications of `telegram_tracker2.py`: the message composed for every
 * stored frame, the queue that carries it from the tracker to the bot, the set of
 * subscribed chats, and the periodic job that drains the queue into the chats.
 *
 * The chat service is reduced to a predicate saying which sends succeed; the order in
 * which the subscriber set is walked is a parameter, since the set fixes none.
 */
module Notify {
  import opened Common
  import opened Text
  import opened Uart
  import opened Capture

  type ChatId = int

  datatype Location = Location(latitude: int, longitude: int)

  /** One queued item: the keys `text` and `location` and nothing else. */
  datatype Notification = Notification(text: string, location: Option<Location>)

  const HEADLINE: string := "\U{1F4E1} Buffer Received!\n"
  const GPS_PREFIX: string := "\U{1F4CD} GPS: "
  const NO_FIX_LINE: string := "\U{1F4CD} GPS: No fix\n"

  /** The lines about the frame itself: sequence, device count and summary, advertisements. */
  function FrameLines(h: Header, devices: seq<Device>): string
  {
    HEADLINE
    + "Sequence: #" + NatToString(h.sequence) + "\n"
    + "Devices: " + NatToString(|devices|) + " (" + Join(Summary(devices, "more"), ", ") + ")\n"
    + "Advertisements: " + NatToString(h.nAdvRaw) + "\n"
  }

  /**
   * The message the overriding `_store_buffer` enqueues after a successful store. A fix
   * whose coordinate is missing cannot be formatted: the override raises (`Err`) and
   * nothing is enqueued.
   */
  function Compose(h: Header, devices: seq<Device>, gps: Option<Fix>): (r: Result<Notification>)
    ensures r.Err? <==> FormatRaises(gps)
    ensures r.Ok? ==> StartsWith(r.value.text, FrameLines(h, devices))
    ensures r.Ok? ==> (r.value.location.Some? <==> gps.Some?)
    ensures r.Ok? && gps.Some? ==>
              r.value.location == Some(Location(gps.value.latitude.value, gps.value.longitude.value))
    ensures r.Ok? ==> (EndsWith(r.value.text, NO_FIX_LINE) <==> gps.None?)
  {
    var head := FrameLines(h, devices);
    match gps
    case None => Ok(Notification(head + NO_FIX_LINE, None))
    case Some(fix) =>
      if fix.latitude.None? || fix.longitude.None? then Err("TypeError: unsupported format string passed to NoneType.__format__")
      else
        var lat, lon := fix.latitude.value, fix.longitude.value;
        var line := GPS_PREFIX + IntToString(lat) + ", " + IntToString(lon)
                    + " (" + IntToString(fix.speed) + " knots)\n";
        var text := head + line;
        assert text[|text| - 2] == ')' && NO_FIX_LINE[|NO_FIX_LINE| - 2] == 'x';
        Ok(Notification(text, Some(Location(lat, lon))))
  }

  /** The `queue.Queue` shared by the tracker and the bot. */
  class MessageQueue {
    var items: seq<Notification>

    constructor ()
      ensures items == []
    {
      items := [];
    }

    /** `put` */
    method Put(n: Notification)
      modifies this
      ensures items == old(items) + [n]
    {
      items := items + [n];
    }

    /** `get_nowait` on a non-empty queue: the oldest item. */
    method Get() returns (n: Notification)
      requires items != []
      modifies this
      ensures [n] + items == old(items)
    {
      n := items[0];
      items := items[1..];
    }
  }

  const SUBSCRIBED_REPLY: string := "You are now subscribed to buffer notifications!"
  const UNSUBSCRIBED_REPLY: string := "You are now unsubscribed from buffer notifications."
  const NOT_SUBSCRIBED_REPLY: string := "You were not subscribed."

  /** The set of chats that receive notifications (`notification_chats`). */
  class Subscriptions {
    var chats: set<ChatId>

    constructor ()
      ensures chats == {}
    {
      chats := {};
    }

    /** `/subscribe`: adding a chat that is already there changes nothing. */
    method Subscribe(chat: ChatId) returns (reply: string)
      modifies this
      ensures chats == old(chats) + {chat}
      ensures reply == SUBSCRIBED_REPLY
    {
      chats := chats + {chat};
      reply := SUBSCRIBED_REPLY;
    }

    /** `/unsubscribe`: removes the chat if it is there, and says which case it was. */
    method Unsubscribe(chat: ChatId) returns (reply: string)
      modifies this
      ensures chats == old(chats) - {chat}
      ensures reply == if chat in old(chats) then UNSUBSCRIBED_REPLY else NOT_SUBSCRIBED_REPLY
    {
      if chat in chats {
        chats := chats - {chat};
        reply := UNSUBSCRIBED_REPLY;
      } else {
        reply := NOT_SUBSCRIBED_REPLY;
      }
    }
  }

  /** One call to the chat service. */
  datatype Send = Text(chat: ChatId, text: string) | Pin(chat: ChatId, location: Location)

  /** What one chat is sent for one item: the text, then the location if there is one. */
  function ChatSends(item: Notification, chat: ChatId): (r: seq<Send>)
    ensures r != [] && r[0] == Text(chat, item.text)
    ensures forall s :: s in r ==> s.chat == chat
  {
    [Text(chat, item.text)] + (if item.location.Some? then [Pin(chat, item.location.value)] else [])
  }

  /** Every send an item calls for, chat after chat, when none fails. */
  function Schedule(item: Notification, chats: seq<ChatId>): seq<Send>
  {
    if chats == [] then [] else ChatSends(item, chats[0]) + Schedule(item, chats[1..])
  }

  /**
   * The sends of one item that go through: chat after chat, until a send fails; the
   * exception then abandons the rest of the item's chats.
   */
  function SendItem(item: Notification, chats: seq<ChatId>, ok: Send -> bool): (r: seq<Send>)
    decreases |chats|
  {
    if chats == [] then []
    else
      var c := chats[0];
      var rest := SendItem(item, chats[1..], ok);
      if !ok(Text(c, item.text)) then []
      else if item.location.None? then [Text(c, item.text)] + rest
      else if !ok(Pin(c, item.location.value)) then [Text(c, item.text)]
      else [Text(c, item.text), Pin(c, item.location.value)] + rest
  }

  /** Every send of an item goes to one of the chats it is sent to. */
  lemma {:induction false} SendsOnlyToChats(item: Notification, chats: seq<ChatId>, ok: Send -> bool)
    ensures forall s :: s in SendItem(item, chats, ok) ==> s.chat in chats
    decreases |chats|
  {
    if chats != [] {
      SendsOnlyToChats(item, chats[1..], ok);
      forall s | s in SendItem(item, chats, ok)
        ensures s.chat in chats
      {
        if s !in SendItem(item, chats[1..], ok) {
          assert s.chat == chats[0];
        }
      }
    }
  }

  /** The sends of a whole queue, item after item in FIFO order; a failure only ends its own item. */
  function SendAll(items: seq<Notification>, chats: seq<ChatId>, ok: Send -> bool): seq<Send>
  {
    if items == [] then [] else SendItem(items[0], chats, ok) + SendAll(items[1..], chats, ok)
  }

  /**
   * What goes through for one item is the longest run of the schedule that succeeds:
   * a prefix of the schedule, every send of it successful, and, if it stops short,
   * stopped by the send that failed.
   */
  lemma {:induction false} SendItemIsSuccessfulPrefix(item: Notification, chats: seq<ChatId>, ok: Send -> bool)
    ensures var d, f := SendItem(item, chats, ok), Schedule(item, chats);
            |d| <= |f| && d == f[..|d|]
            && (forall i :: 0 <= i < |d| ==> ok(d[i]))
            && (|d| < |f| ==> !ok(f[|d|]))
    decreases |chats|
  {
    if chats != [] {
      SendItemIsSuccessfulPrefix(item, chats[1..], ok);
      var c := chats[0];
      var d, f := SendItem(item, chats, ok), Schedule(item, chats);
      var rest, tail := SendItem(item, chats[1..], ok), Schedule(item, chats[1..]);
      assert f == ChatSends(item, c) + tail;
      if ok(Text(c, item.text)) && item.location.None? {
        assert d == [Text(c, item.text)] + rest;
        assert f[1..] == tail;
      } else if ok(Text(c, item.text)) && ok(Pin(c, item.location.value)) {
        assert d == [Text(c, item.text), Pin(c, item.location.value)] + rest;
        assert f[2..] == tail;
      }
    }
  }

  /** Draining two queues one after the other sends what draining their concatenation sends. */
  lemma {:induction false} SendAllAppend(a: seq<Notification>, b: seq<Notification>, chats: seq<ChatId>, ok: Send -> bool)
    ensures SendAll(a + b, chats, ok) == SendAll(a, chats, ok) + SendAll(b, chats, ok)
    decreases |a|
  {
    if a == [] {
      assert a + b == b;
    } else {
      assert (a + b)[0] == a[0] && (a + b)[1..] == a[1..] + b;
      SendAllAppend(a[1..], b, chats, ok);
    }
  }

  /**
   * With no failing send, every chat is sent every text, and the location exactly when
   * the item carries one.
   */
  lemma {:induction false} EveryChatNotified(item: Notification, chats: seq<ChatId>, ok: Send -> bool, c: ChatId)
    requires forall s :: ok(s)
    ensures SendItem(item, chats, ok) == Schedule(item, chats)
    ensures c in chats ==> Text(c, item.text) in SendItem(item, chats, ok)
    ensures forall l :: Pin(c, l) in SendItem(item, chats, ok) <==> c in chats && item.location == Some(l)
    decreases |chats|
  {
    if chats != [] {
      EveryChatNotified(item, chats[1..], ok, c);
      var s := SendItem(item, chats, ok);
      var rest := SendItem(item, chats[1..], ok);
      assert s == ChatSends(item, chats[0]) + rest;
      forall l
        ensures Pin(c, l) in s <==> c in chats && item.location == Some(l)
      {
        if Pin(c, l) in s && Pin(c, l) !in rest {
          assert Pin(c, l) in ChatSends(item, chats[0]);
        }
      }
    }
  }

  /** An item without a location makes no location send. */
  lemma {:induction false} NoPinWithoutLocation(item: Notification, chats: seq<ChatId>, ok: Send -> bool)
    requires item.location.None?
    ensures forall s :: s in SendItem(item, chats, ok) ==> s.Text? && s.text == item.text
    decreases |chats|
  {
    if chats != [] {
      NoPinWithoutLocation(item, chats[1..], ok);
    }
  }

  /**
   * The body of one turn of `process_queue`: send the item to each chat of `order`,
   * the text then the location, until a send fails. Returns the sends that went through.
   */
  method DeliverItem(item: Notification, order: seq<ChatId>, ok: Send -> bool) returns (delivered: seq<Send>)
    ensures delivered == SendItem(item, order, ok)
  {
    delivered := [];
    var failed := false;
    var i := 0;
    while i < |order| && !failed
      invariant 0 <= i <= |order|
      invariant !failed ==> delivered + SendItem(item, order[i..], ok) == SendItem(item, order, ok)
      invariant failed ==> delivered == SendItem(item, order, ok)
    {
      var chat := order[i];
      ghost var rest := SendItem(item, order[i + 1..], ok);
      assert order[i..][0] == chat && order[i..][1..] == order[i + 1..];
      assert SendItem(item, order[i..], ok)
             == if !ok(Text(chat, item.text)) then []
                else if item.location.None? then [Text(chat, item.text)] + rest
                else if !ok(Pin(chat, item.location.value)) then [Text(chat, item.text)]
                else [Text(chat, item.text), Pin(chat, item.location.value)] + rest;
      if !ok(Text(chat, item.text)) {
        failed := true;
      } else {
        delivered := delivered + [Text(chat, item.text)];
        if item.location.Some? {
          if !ok(Pin(chat, item.location.value)) {
            failed := true;
          } else {
            delivered := delivered + [Pin(chat, item.location.value)];
          }
        }
      }
      i := i + 1;
    }
  }

  /**
   * `process_queue`: take items off the queue in FIFO order until it is empty and send
   * each to the subscribed chats, walked in the order `order`. A failed send ends that
   * item, which is already off the queue, and the loop goes on with the next.
   * Returns the sends that went through.
   */
  method ProcessQueue(queue: MessageQueue, subscribers: Subscriptions, order: seq<ChatId>, ok: Send -> bool)
    returns (sent: seq<Send>)
    requires Distinct(order) && (forall c :: c in subscribers.chats <==> c in order)
    modifies queue
    ensures queue.items == []
    ensures sent == SendAll(old(queue.items), order, ok)
  {
    sent := [];
    while queue.items != []
      invariant sent + SendAll(queue.items, order, ok) == SendAll(old(queue.items), order, ok)
      decreases |queue.items|
    {
      var item := queue.Get();
      var delivered := DeliverItem(item, order, ok);
      sent := sent + delivered;
    }
  }
}
