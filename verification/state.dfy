/**
  The dispatcher's state and configuration.  The three JSON stores
  (channels, posts, outbox) and the two in-memory trackers
  (`forbidden_counts`, `last_sent_times`) live in one immutable record,
  `Bot`; every operation of the model takes a `Bot` and returns a new one.

  Time is an integer number of milliseconds.  The transport is an oracle:
  `reply(k)` is the outcome of the k-th send attempt the process makes, and
  every operation that sends takes the index of its first attempt (a cursor)
  and returns the index after its last one.
*/
module State {
  import opened Wrappers

  /** What one `copy_message` / `send_document` / `send_message` call does. */
  datatype Outcome = SendOk | SendForbidden | SendOtherErr

  /** The transport: the outcome of every send attempt, by attempt number. */
  type Transport = nat -> Outcome

  /** The `status` of a per-channel result record. */
  datatype Status =
    | Ok          // "ok"
    | Forbidden   // "forbidden": auto-removal fired
    | Failed      // "failed": retries exhausted
    | Error       // "error": a direct (file) send raised

  datatype ChannelResult = ChannelResult(channel: string, status: Status)

  /** The message a broadcast copies: `from_chat_id` and `message_id`. */
  datatype MessageRef = MessageRef(fromChat: int, messageId: int)

  /** One ledger record in posts.json: `type` is always "broadcast". */
  datatype Post = Post(source: MessageRef, results: seq<ChannelResult>, origin: Option<int>, time: int)

  /** The `type` of an outbox entry: "copy", "file", or anything else (including none). */
  datatype Kind = Copy | File | OtherKind

  /** The `status` of an outbox entry. */
  datatype EntryStatus = Pending | Sending | Sent | Errored | UnknownType  // Errored is "error"

  /**
    One record of outbox.json.  `sendAt` is None when `send_at` is missing or
    not an ISO timestamp; `fromChat`/`messageId` are None when the key is
    missing; `err` holds the text of the exception that ended a copy entry.
  */
  datatype Entry = Entry(
    kind: Kind,
    fromChat: Option<int>,
    messageId: Option<int>,
    sendAt: Option<int>,
    status: EntryStatus,
    origin: Option<int>,
    results: seq<ChannelResult>,
    sentAt: Option<int>,
    err: Option<string>)

  /** The whole mutable state of the dispatcher. */
  datatype Bot = Bot(
    channels: seq<string>,
    forbiddenCounts: map<string, int>,
    lastSentTimes: map<string, int>,
    posts: seq<Post>,
    outbox: seq<Entry>,
    clock: int)

  /**
    The configuration surface: SEND_RETRY_COUNT, SEND_RETRY_DELAY and the
    ANTI_BAN block (delays in milliseconds).
  */
  datatype Config = Config(
    retryCount: int,
    retryDelay: nat,
    interSendDelay: nat,
    cooldown: int,
    removeOnForbidden: bool,
    forbiddenThreshold: int)

  /** The values used when config.json leaves a key out. */
  const DefaultConfig := Config(3, 2000, 350, 10000, true, 3)

  /** `d.get(k, 0)`. */
  function Get(m: map<string, int>, k: string): int {
    if k in m then m[k] else 0
  }
}
