/** The reply queue as a sequence: what pushing and popping by request identifier mean. */
module QueueSpec {
  import opened Ids

  /** The data field is kept abstractly as bytes; popping looks only at the request identifier. */
  datatype Message = Message(requestId: nat, data: seq<byte>)

  ghost predicate HasId(q: seq<Message>, id: nat) {
    exists i :: 0 <= i < |q| && q[i].requestId == id
  }

  /** Position of the first message with the identifier, the length if there is none. */
  function FirstIndex(q: seq<Message>, id: nat): (i: nat)
    ensures i <= |q|
    ensures forall j | 0 <= j < i :: q[j].requestId != id
    ensures i < |q| ==> q[i].requestId == id
    ensures i < |q| <==> HasId(q, id)
  {
    if q == [] then 0
    else if q[0].requestId == id then 0
    else
      var i := FirstIndex(q[1..], id);
      assert i < |q[1..]| ==> q[1..][i] == q[i + 1];
      assert forall j | 1 <= j < |q| :: q[j] == q[1..][j - 1];
      i + 1
  }

  function RemoveAt(q: seq<Message>, i: nat): seq<Message>
    requires i < |q|
  {
    q[..i] + q[i + 1..]
  }

  /** The messages with one identifier, in queue order. */
  function OfId(q: seq<Message>, id: nat): seq<Message> {
    if q == [] then []
    else (if q[0].requestId == id then [q[0]] else []) + OfId(q[1..], id)
  }

  lemma {:induction false} OfIdConcat(a: seq<Message>, b: seq<Message>, id: nat)
    ensures OfId(a + b, id) == OfId(a, id) + OfId(b, id)
  {
    if a == [] {
      assert a + b == b;
    } else {
      OfIdConcat(a[1..], b, id);
      assert (a + b)[0] == a[0] && (a + b)[1..] == a[1..] + b;
    }
  }

  lemma {:induction false} OfIdNone(q: seq<Message>, id: nat)
    requires forall j | 0 <= j < |q| :: q[j].requestId != id
    ensures OfId(q, id) == []
  {
    if q != [] {
      OfIdNone(q[1..], id);
    }
  }

  lemma OfIdSplit(q: seq<Message>, i: nat, id: nat)
    requires i < |q|
    ensures OfId(q, id) == OfId(q[..i], id) + OfId([q[i]] + q[i + 1..], id)
    ensures OfId(RemoveAt(q, i), id) == OfId(q[..i], id) + OfId(q[i + 1..], id)
  {
    assert q == q[..i] + ([q[i]] + q[i + 1..]);
    OfIdConcat(q[..i], [q[i]] + q[i + 1..], id);
    OfIdConcat(q[..i], q[i + 1..], id);
  }

  /** Removing the first message with an identifier takes the head of that identifier's messages and
      leaves every other identifier's messages as they are. */
  lemma RemoveFirstPerId(q: seq<Message>, id: nat, other: nat)
    requires HasId(q, id)
    ensures var i := FirstIndex(q, id);
            if other == id then OfId(q, id) == [q[i]] + OfId(RemoveAt(q, i), id)
            else OfId(RemoveAt(q, i), other) == OfId(q, other)
  {
    var i := FirstIndex(q, id);
    OfIdSplit(q, i, other);
    if other == id {
      OfIdNone(q[..i], id);
    }
  }
}
