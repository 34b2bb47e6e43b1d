/**
 * The two outside collaborators the monitors act on, as a log of effects:
 * `send_telegram_message` (fire-and-forget) and `update_last_processed`
 * (an upsert of the one stored post id). A send or a write is recorded as
 * attempted; the source logs and swallows a failed one, and the log assumes
 * every write took effect.
 */
module Store {
  import opened Wrappers

  datatype Effect = Notify(message: string) | Write(postId: string)

  /** The stored post id after the effects, starting from `initial`: the last write wins. */
  function FinalWatermark(initial: Option<string>, effects: seq<Effect>): (w: Option<string>)
    ensures w == initial || (w.Some? && exists k :: 0 <= k < |effects| && effects[k] == Write(w.value))
  {
    if effects == [] then initial
    else match effects[|effects| - 1]
      case Write(id) => Some(id)
      case Notify(_) => FinalWatermark(initial, effects[..|effects| - 1])
  }

  /** The messages sent, in order. */
  function Sent(effects: seq<Effect>): (r: seq<string>)
    ensures |r| <= |effects|
  {
    if effects == [] then []
    else (if effects[0].Notify? then [effects[0].message] else []) + Sent(effects[1..])
  }

  /** The ids written, in order. */
  function Written(effects: seq<Effect>): (r: seq<string>)
    ensures |r| <= |effects|
  {
    if effects == [] then []
    else (if effects[0].Write? then [effects[0].postId] else []) + Written(effects[1..])
  }

  /** Every notification is followed at once by a watermark write. */
  predicate NotifiesThenWrites(effects: seq<Effect>) {
    forall k :: 0 <= k < |effects| && effects[k].Notify? ==> k + 1 < |effects| && effects[k + 1].Write?
  }

  /** The store is a state machine: effects can be replayed in two halves. */
  lemma {:induction false} FinalWatermarkAppend(initial: Option<string>, a: seq<Effect>, b: seq<Effect>)
    ensures FinalWatermark(initial, a + b) == FinalWatermark(FinalWatermark(initial, a), b)
    decreases |b|
  {
    if b != [] {
      assert (a + b)[..|a + b| - 1] == a + b[..|b| - 1];
      FinalWatermarkAppend(initial, a, b[..|b| - 1]);
    } else {
      assert a + b == a;
    }
  }

  /** A log with no write leaves the stored id as it was. */
  lemma {:induction false} NoWriteKeepsWatermark(initial: Option<string>, effects: seq<Effect>)
    requires forall k :: 0 <= k < |effects| ==> !effects[k].Write?
    ensures FinalWatermark(initial, effects) == initial
    decreases |effects|
  {
    if effects != [] {
      NoWriteKeepsWatermark(initial, effects[..|effects| - 1]);
    }
  }

  lemma {:induction false} SentAppend(a: seq<Effect>, b: seq<Effect>)
    ensures Sent(a + b) == Sent(a) + Sent(b)
    decreases |a|
  {
    if a != [] {
      assert (a + b)[1..] == a[1..] + b;
      SentAppend(a[1..], b);
    } else {
      assert a + b == b;
    }
  }

  lemma {:induction false} WrittenAppend(a: seq<Effect>, b: seq<Effect>)
    ensures Written(a + b) == Written(a) + Written(b)
    decreases |a|
  {
    if a != [] {
      assert (a + b)[1..] == a[1..] + b;
      WrittenAppend(a[1..], b);
    } else {
      assert a + b == b;
    }
  }

  lemma NotifiesThenWritesAppend(a: seq<Effect>, b: seq<Effect>)
    requires NotifiesThenWrites(a) && NotifiesThenWrites(b)
    ensures NotifiesThenWrites(a + b)
  {
    forall k | 0 <= k < |a + b| && (a + b)[k].Notify?
      ensures k + 1 < |a + b| && (a + b)[k + 1].Write?
    {
      if k < |a| {
        assert a[k].Notify?;
      } else {
        assert b[k - |a|].Notify?;
      }
    }
  }

  /** Concatenation of effect logs is associative. */
  lemma AppendAssoc<T>(a: seq<T>, b: seq<T>, c: seq<T>)
    ensures a + (b + c) == (a + b) + c
  {
  }

  /** The stored id after the effects is the last id written, if any. */
  lemma {:induction false} FinalIsLastWritten(initial: Option<string>, effects: seq<Effect>)
    ensures FinalWatermark(initial, effects) ==
      if Written(effects) == [] then initial else Some(Written(effects)[|Written(effects)| - 1])
    decreases |effects|
  {
    if effects != [] {
      var front := effects[..|effects| - 1];
      var e := effects[|effects| - 1];
      assert effects == front + [e];
      WrittenAppend(front, [e]);
      FinalWatermarkAppend(initial, front, [e]);
      FinalIsLastWritten(initial, front);
    }
  }
}
