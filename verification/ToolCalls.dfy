/** Tool-call ids: one flat list of calls in flight, searched from its end. */
module ToolCalls {

  datatype Pending = Pending(name: string, id: string)

  /** The ids in flight under one name, oldest first. */
  function Stack(pending: seq<Pending>, name: string): seq<string> {
    if pending == [] then []
    else
      var below := Stack(pending[..|pending| - 1], name);
      var last := pending[|pending| - 1];
      if last.name == name then below + [last.id] else below
  }

  class PendingCalls {
    var pending: seq<Pending>

    constructor ()
      ensures pending == []
    {
      pending := [];
    }

    /** A call starts: its new id goes on top of the stack of its name. */
    method PushToolCallId(name: string, shortId: string) returns (id: string)
      modifies this
      ensures id == "call-" + shortId
      ensures Stack(pending, name) == Stack(old(pending), name) + [id]
      ensures forall other :: other != name ==> Stack(pending, other) == Stack(old(pending), other)
    {
      id := "call-" + shortId;
      pending := pending + [Pending(name, id)];
      assert pending[..|pending| - 1] == old(pending);
    }

    /** A call finishes: it gets the id on top of its name's stack, or an orphan id when there is none. */
    method PopToolCallId(name: string, shortId: string) returns (id: string)
      modifies this
      ensures Stack(old(pending), name) == [] ==> id == "call-orphan-" + shortId && pending == old(pending)
      ensures Stack(old(pending), name) != [] ==> Stack(old(pending), name) == Stack(pending, name) + [id]
      ensures forall other :: other != name ==> Stack(pending, other) == Stack(old(pending), other)
    {
      var i := |pending|;
      assert pending[..i] == pending;
      while i > 0
        invariant 0 <= i <= |pending| && pending == old(pending)
        invariant Stack(pending, name) == Stack(pending[..i], name)
        invariant forall j :: i <= j < |pending| ==> pending[j].name != name
      {
        i := i - 1;
        assert pending[..i + 1][..i] == pending[..i] && pending[..i + 1][i] == pending[i];
        if pending[i].name == name {
          RemoveTop(pending, i);
          id := pending[i].id;
          pending := pending[..i] + pending[i + 1..];
          return;
        }
      }
      id := "call-orphan-" + shortId;
    }
  }

  /** Removing the last entry of a name pops that name's stack and leaves every other stack alone. */
  lemma RemoveTop(pending: seq<Pending>, i: nat)
    requires i < |pending| && forall j :: i < j < |pending| ==> pending[j].name != pending[i].name
    ensures var rest := pending[..i] + pending[i + 1..];
            && Stack(pending, pending[i].name) == Stack(rest, pending[i].name) + [pending[i].id]
            && forall other :: other != pending[i].name ==> Stack(rest, other) == Stack(pending, other)
  {
    var rest := pending[..i] + pending[i + 1..];
    forall other
      ensures Stack(pending, other)
           == if other == pending[i].name then Stack(rest, other) + [pending[i].id] else Stack(rest, other)
    {
      RemoveOne(pending, i, other);
    }
  }

  lemma {:induction false} RemoveOne(pending: seq<Pending>, i: nat, name: string)
    requires i < |pending| && forall j :: i < j < |pending| ==> pending[j].name != pending[i].name
    ensures var rest := pending[..i] + pending[i + 1..];
            Stack(pending, name)
            == if name == pending[i].name then Stack(rest, name) + [pending[i].id] else Stack(rest, name)
  {
    var front := pending[..|pending| - 1];
    var rest := pending[..i] + pending[i + 1..];
    if i == |pending| - 1 {
      assert rest == front;
    } else {
      RemoveOne(front, i, name);
      assert rest[..|rest| - 1] == front[..i] + front[i + 1..] && rest[|rest| - 1] == pending[|pending| - 1];
    }
  }

  // ----- any interleaving of starts and finishes, against one stack per name

  datatype Call = Started(name: string, shortId: string) | Finished(name: string, shortId: string)

  function StackIn(stacks: map<string, seq<string>>, name: string): seq<string> {
    if name in stacks then stacks[name] else []
  }

  /** The reference: an independent stack for every name, and the id a call is given. */
  function OneOnStacks(stacks: map<string, seq<string>>, call: Call): (string, map<string, seq<string>>) {
    var s := StackIn(stacks, call.name);
    match call
    case Started(name, shortId) => ("call-" + shortId, stacks[name := s + ["call-" + shortId]])
    case Finished(name, shortId) =>
      if s == [] then ("call-orphan-" + shortId, stacks) else (s[|s| - 1], stacks[name := s[..|s| - 1]])
  }

  function OnStacks(stacks: map<string, seq<string>>, calls: seq<Call>): seq<string>
    decreases |calls|
  {
    if calls == [] then []
    else var (id, next) := OneOnStacks(stacks, calls[0]); [id] + OnStacks(next, calls[1..])
  }

  ghost predicate Represents(pending: seq<Pending>, stacks: map<string, seq<string>>) {
    forall name :: Stack(pending, name) == StackIn(stacks, name)
  }

  method RunOne(inFlight: PendingCalls, call: Call, ghost stacks: map<string, seq<string>>) returns (id: string)
    requires Represents(inFlight.pending, stacks)
    modifies inFlight
    ensures id == OneOnStacks(stacks, call).0 && Represents(inFlight.pending, OneOnStacks(stacks, call).1)
  {
    hide Stack;
    ghost var s := StackIn(stacks, call.name);
    assert Stack(inFlight.pending, call.name) == s;
    match call {
      case Started(name, shortId) =>
        id := inFlight.PushToolCallId(name, shortId);
      case Finished(name, shortId) =>
        id := inFlight.PopToolCallId(name, shortId);
        if s != [] {
          assert s == Stack(inFlight.pending, name) + [id];
        }
    }
  }

  /** The flat list refines the stacks: for every sequence of calls, the same ids in the same order. */
  method RunCalls(calls: seq<Call>) returns (ids: seq<string>)
    ensures ids == OnStacks(map[], calls)
  {
    var inFlight := new PendingCalls();
    ghost var stacks: map<string, seq<string>> := map[];
    assert Represents(inFlight.pending, stacks);
    hide Represents, OneOnStacks;
    ids := [];
    assert calls[0..] == calls && [] + OnStacks(stacks, calls) == OnStacks(stacks, calls);
    for i := 0 to |calls|
      invariant Represents(inFlight.pending, stacks)
      invariant ids + OnStacks(stacks, calls[i..]) == OnStacks(map[], calls)
    {
      assert calls[i..][0] == calls[i] && calls[i..][1..] == calls[i + 1..];
      var id := RunOne(inFlight, calls[i], stacks);
      stacks := OneOnStacks(stacks, calls[i]).1;
      assert ids + ([id] + OnStacks(stacks, calls[i + 1..])) == (ids + [id]) + OnStacks(stacks, calls[i + 1..]);
      ids := ids + [id];
    }
    assert calls[|calls|..] == [] && ids + [] == ids;
  }
}
