/** The table of permission requests the bridge has sent and not yet had answered. */
module Permissions {
  import opened Wrappers

  /** A JSON value in the place of a JSON-RPC id. */
  datatype Id = NullId | StringId(s: string) | NumberId(n: int) | OtherId(text: string)

  datatype Reply = Granted(value: Option<string>) | Refused(error: string) | Cancelled

  // ----- decimal printing

  function Digit(d: nat): char
    requires d < 10
  {
    ['0', '1', '2', '3', '4', '5', '6', '7', '8', '9'][d]
  }

  function Decimal(n: nat): (s: string)
    ensures s != ""
  {
    if n < 10 then [Digit(n)] else Decimal(n / 10) + [Digit(n % 10)]
  }

  /** The number that a text of decimal digits stands for. */
  function ValueOf(s: string): int {
    if s == "" then 0 else ValueOf(s[..|s| - 1]) * 10 + (s[|s| - 1] as int - '0' as int)
  }

  /** What is printed are decimal digits that read back as the number, without a leading zero. */
  lemma {:induction false} DecimalReadsBack(n: nat)
    ensures ValueOf(Decimal(n)) == n && forall i :: 0 <= i < |Decimal(n)| ==> '0' <= Decimal(n)[i] <= '9'
    ensures n > 0 ==> Decimal(n)[0] != '0'
  {
    var s := Decimal(n);
    assert ValueOf("") == 0;
    DigitIsItsValue(n % 10);
    if n < 10 {
      assert s[..0] == "";
    } else {
      DecimalReadsBack(n / 10);
      assert s[..|s| - 1] == Decimal(n / 10);
    }
  }

  lemma DigitIsItsValue(d: nat)
    requires d < 10
    ensures Digit(d) as int == '0' as int + d
  {
  }

  lemma DecimalIsInjective(m: nat, n: nat)
    requires Decimal(m) == Decimal(n)
    ensures m == n
  {
    DecimalReadsBack(m);
    DecimalReadsBack(n);
  }

  function Key(n: nat): string {
    "lib-perm-" + Decimal(n)
  }

  lemma KeyIsInjective(m: nat, n: nat)
    requires Key(m) == Key(n)
    ensures m == n
  {
    assert Key(m)[9..] == Decimal(m) && Key(n)[9..] == Decimal(n);
    DecimalIsInjective(m, n);
  }

  /** How a reply's id is looked up. */
  function IdKey(id: Id): string {
    match id
    case StringId(s) => s
    case NumberId(n) => if n < 0 then "-" + Decimal(-n) else Decimal(n)
    case NullId => "null"
    case OtherId(text) => text
  }

  /** The id a request is sent with is the key its waiter waits under. */
  lemma ReplyFindsItsWaiter(n: nat)
    ensures IdKey(StringId("lib-perm-" + Decimal(n))) == Key(n)
  {
  }

  /** No number, and no null, is the key of a waiter. */
  lemma OtherIdsFindNobody(n: nat, m: int)
    ensures IdKey(NumberId(m)) != Key(n) && IdKey(NullId) != Key(n)
  {
    assert Key(n)[0] == 'l';
    if m >= 0 {
      DecimalReadsBack(m);
      assert Decimal(m)[0] <= '9';
    }
  }

  // ----- the broker

  /** Waiters are numbered 1 to nextId - 1; each is either pending under its own key or has its one answer. */
  ghost predicate Table(pending: map<string, nat>, nextId: nat, answers: map<nat, Reply>) {
    && 1 <= nextId
    && (forall k :: k in pending ==> 1 <= pending[k] < nextId && k == Key(pending[k]))
    && (forall n :: n in answers <==> 1 <= n < nextId && Key(n) !in pending)
  }

  /** Answering the waiter under one key leaves every other waiter as it is. */
  lemma AnswerOne(pending: map<string, nat>, nextId: nat, answers: map<nat, Reply>, key: string, reply: Reply)
    requires Table(pending, nextId, answers) && key in pending
    ensures pending[key] !in answers
    ensures Table(pending - {key}, nextId, answers[pending[key] := reply])
  {
    hide Key;
    KeysStayApart(pending[key]);
  }

  /** The answers given before, and nothing but cancellations beside them. */
  ghost predicate CancelledSince(earlier: map<nat, Reply>, answers: map<nat, Reply>) {
    && (forall n :: n in earlier ==> n in answers && answers[n] == earlier[n])
    && (forall n :: n in answers && n !in earlier ==> answers[n] == Cancelled)
  }

  lemma CancelNone(answers: map<nat, Reply>)
    ensures CancelledSince(answers, answers)
  {
  }

  lemma CancelOne(earlier: map<nat, Reply>, pending: map<string, nat>, nextId: nat, answers: map<nat, Reply>,
                  key: string)
    requires Table(pending, nextId, answers) && CancelledSince(earlier, answers) && key in pending
    ensures pending[key] !in answers && |pending - {key}| < |pending|
    ensures Table(pending - {key}, nextId, answers[pending[key] := Cancelled])
    ensures CancelledSince(earlier, answers[pending[key] := Cancelled])
  {
    hide Table;
    AnswerOne(pending, nextId, answers, key, Cancelled);
    assert (pending - {key}).Keys == pending.Keys - {key};
  }

  lemma AllAnswered(nextId: nat, answers: map<nat, Reply>)
    requires Table(map[], nextId, answers)
    ensures forall n :: 1 <= n < nextId ==> n in answers
  {
  }

  class PermissionBroker {
    /** Keys of unanswered requests, with the number of the waiter each belongs to. */
    var pending: map<string, nat>
    var nextId: nat
    /** Ids of the requests written to the client, in order. */
    var sent: seq<Id>
    /** The one message each answered waiter has received. */
    ghost var answers: map<nat, Reply>

    ghost predicate Valid()
      reads this
    {
      Table(pending, nextId, answers)
    }

    constructor ()
      ensures Valid() && pending == map[] && nextId == 1 && sent == [] && answers == map[]
    {
      pending, nextId, sent, answers := map[], 1, [], map[];
    }

    /** A one-shot channel takes one message. */
    ghost method Send(waiter: nat, reply: Reply)
      requires waiter !in answers
      modifies this`answers
      ensures answers == old(answers)[waiter := reply]
    {
      answers := answers[waiter := reply];
    }

    /** A new waiter under a key nobody waits under, and one request to the client. */
    method Rpc() returns (waiter: nat)
      requires Valid()
      modifies this
      ensures Valid()
      ensures waiter == old(nextId) && nextId == waiter + 1 && answers == old(answers)
      ensures Key(waiter) !in old(pending) && pending == old(pending)[Key(waiter) := waiter]
      ensures sent == old(sent) + [StringId("lib-perm-" + Decimal(waiter))]
    {
      waiter := nextId;
      nextId := nextId + 1;
      if Key(waiter) in pending {
        KeyIsInjective(waiter, pending[Key(waiter)]);
      }
      KeysStayApart(waiter);
      pending := pending[Key(waiter) := waiter];
      sent := sent + [StringId(Key(waiter))];
    }

    /** A reply reaches the waiter whose key its id spells; any other reply changes nothing. */
    method Complete(id: Id, result: Option<string>, error: Option<string>)
      requires Valid()
      modifies this
      ensures Valid() && nextId == old(nextId) && sent == old(sent)
      ensures IdKey(id) !in old(pending) ==> pending == old(pending) && answers == old(answers)
      ensures IdKey(id) in old(pending) ==>
        var reply := if error.Some? then Refused(error.value) else Granted(result);
        && pending == old(pending) - {IdKey(id)}
        && answers == old(answers)[old(pending)[IdKey(id)] := reply]
    {
      var key := IdKey(id);
      if key in pending {
        var waiter := pending[key];
        var reply := if error.Some? then Refused(error.value) else Granted(result);
        AnswerOne(pending, nextId, answers, key, reply);
        pending := pending - {key};
        Send(waiter, reply);
      }
    }

    /** Every waiter registered until now has its answer; those answered before keep theirs. */
    method CancelAll()
      requires Valid()
      modifies this
      ensures Valid() && nextId == old(nextId) && sent == old(sent)
      ensures pending == map[]
      ensures forall n :: 1 <= n < nextId ==> n in answers
      ensures CancelledSince(old(answers), answers)
    {
      hide Key, Table, CancelledSince;
      CancelNone(answers);
      var drained := pending;
      pending := map[];
      ghost var earlier := answers;
      while drained != map[]
        invariant pending == map[] && nextId == old(nextId) && sent == old(sent)
        invariant Table(drained, nextId, answers)
        invariant CancelledSince(earlier, answers)
        decreases |drained|
      {
        var key :| key in drained;
        CancelOne(earlier, drained, nextId, answers, key);
        Send(drained[key], Cancelled);
        drained := drained - {key};
      }
      AllAnswered(nextId, answers);
    }
  }

  lemma KeysStayApart(n: nat)
    ensures forall m: nat :: Key(m) == Key(n) ==> m == n
  {
    forall m: nat | Key(m) == Key(n)
      ensures m == n
    {
      KeyIsInjective(m, n);
    }
  }

  /** A reply that carries the id of a request just sent is the answer of its waiter. */
  method AskAndAnswer(broker: PermissionBroker, result: Option<string>, error: Option<string>) returns (waiter: nat)
    requires broker.Valid()
    modifies broker
    ensures broker.Valid() && broker.pending == old(broker.pending)
    ensures waiter == old(broker.nextId) && waiter !in old(broker.answers)
    ensures broker.answers
         == old(broker.answers)[waiter := if error.Some? then Refused(error.value) else Granted(result)]
  {
    waiter := broker.Rpc();
    var id := broker.sent[|broker.sent| - 1];
    ReplyFindsItsWaiter(waiter);
    broker.Complete(id, result, error);
  }
}
