/**
 * The message-template resolvers of backend/src/resolvers/messageResolver.ts
 * over the Prisma `MessageTemplate` table, and `sendTestMessage`, which sends
 * one template of a type chosen at random. `Math.random()` is the parameter
 * `random`, a number in [0, 1). The update and delete mutations hand their
 * `ID` argument to Prisma as the string GraphQL delivers; here the id is the
 * number that string spells.
 */
module MessageResolver {
  import opened Wrappers
  import opened Context
  import Tables
  import Sms

  /** A stored template; `kind` is the `type` column, a free string on the server. */
  datatype Template = Template(id: nat, kind: string, content: string, design: string)

  predicate IdsIncreasing(ts: seq<Template>) {
    forall i, j :: 0 <= i < j < |ts| ==> ts[i].id < ts[j].id
  }

  /** `where: { type }`: the templates of one type, in the order given. */
  function OfKind(ts: seq<Template>, kind: string): (r: seq<Template>)
    ensures forall t :: t in r <==> t in ts && t.kind == kind
    ensures |r| <= |ts|
  {
    if ts == [] then []
    else (if ts[0].kind == kind then [ts[0]] else []) + OfKind(ts[1..], kind)
  }

  /** `where: { type }` keeps every template of the type as often as it occurs, and no other. */
  lemma {:induction false} OfKindCounts(ts: seq<Template>, kind: string, t: Template)
    ensures multiset(OfKind(ts, kind))[t] == if t.kind == kind then multiset(ts)[t] else 0
  {
    if ts != [] {
      assert ts == [ts[0]] + ts[1..];
      OfKindCounts(ts[1..], kind, t);
    }
  }

  /** The filter keeps the order of the list: filtering a concatenation filters each part. */
  lemma {:induction false} OfKindAppend(a: seq<Template>, b: seq<Template>, kind: string)
    ensures OfKind(a + b, kind) == OfKind(a, kind) + OfKind(b, kind)
  {
    if a == [] {
      assert a + b == b;
    } else {
      assert a == [a[0]] + a[1..];
      assert a + b == [a[0]] + (a[1..] + b);
      OfKindCons(a[0], a[1..] + b, kind);
      OfKindCons(a[0], a[1..], kind);
      OfKindAppend(a[1..], b, kind);
    }
  }

  lemma OfKindCons(x: Template, s: seq<Template>, kind: string)
    ensures OfKind([x] + s, kind) == (if x.kind == kind then [x] else []) + OfKind(s, kind)
  {
    assert ([x] + s)[1..] == s;
  }

  /** `Math.floor(random * n)`. */
  function RandomIndex(random: real, n: nat): (i: nat)
    requires 0.0 <= random < 1.0 && n > 0
    ensures i < n
  {
    FloorBelow(random, n);
    (random * n as real).Floor
  }

  lemma FloorBelow(random: real, n: nat)
    requires 0.0 <= random < 1.0 && n > 0
    ensures 0 <= (random * n as real).Floor < n
  {
    assert 0.0 <= random * n as real < n as real;
  }

  /**
   * Each index is chosen for a slice of [0, 1) of width 1/n, so a uniform
   * `Math.random()` picks each of the n templates with equal probability.
   */
  lemma RandomIndexIff(random: real, n: nat, i: nat)
    requires 0.0 <= random < 1.0 && n > 0
    ensures RandomIndex(random, n) == i <==> i as real / n as real <= random < (i + 1) as real / n as real
  {
    ScaleIff(i as real, random, n as real);
    ScaleIff((i + 1) as real, random, n as real);
  }

  /** Dividing by a positive number keeps both comparisons. */
  lemma ScaleIff(a: real, x: real, q: real)
    requires q > 0.0
    ensures a <= x * q <==> a / q <= x
    ensures x * q < a <==> x < a / q
  {
    var b := a / q;
    assert b * q == a;
    assert b <= x ==> b * q <= x * q;
    assert x < b ==> x * q < b * q;
  }

  /** The template `sendTestMessage` sends, or the error it throws when the type has none. */
  function PickTestTemplate(all: seq<Template>, kind: string, random: real): (r: Result<Template, ResolverError>)
    requires 0.0 <= random < 1.0
    ensures r.Err? <==> forall t :: t in all ==> t.kind != kind
    ensures r.Err? ==> r.error == NoTemplatesFound("No templates found for type: " + kind)
    ensures r.Ok? ==> r.value in all && r.value.kind == kind
  {
    var candidates := OfKind(all, kind);
    if candidates == [] then Err(NoTemplatesFound("No templates found for type: " + kind))
    else
      assert candidates[0] in candidates;
      Ok(candidates[RandomIndex(random, |candidates|)])
  }

  /** Every template of the requested type is the one sent for some value of `Math.random()`. */
  lemma EveryTemplateCanBePicked(all: seq<Template>, kind: string, t: Template)
    requires t in all && t.kind == kind
    ensures exists random: real :: 0.0 <= random < 1.0 && PickTestTemplate(all, kind, random) == Ok(t)
  {
    var candidates := OfKind(all, kind);
    assert t in candidates;
    var i :| 0 <= i < |candidates| && candidates[i] == t;
    var random := FractionBelowOne(i, |candidates|);
    RandomIndexOfFraction(i, |candidates|);
    assert PickTestTemplate(all, kind, random) == Ok(t);
  }

  /** The draw `i / n` picks index `i`. */
  lemma RandomIndexOfFraction(i: nat, n: nat)
    requires i < n
    ensures RandomIndex(FractionBelowOne(i, n), n) == i
  {
    var random := FractionBelowOne(i, n);
    FloorOfWhole(random * n as real, i);
  }

  lemma FloorOfWhole(x: real, i: int)
    requires x == i as real
    ensures x.Floor == i
  {
  }

  /** i / n, a number in [0, 1) for i < n. */
  function FractionBelowOne(i: nat, n: nat): (random: real)
    requires i < n
    ensures 0.0 <= random < 1.0
    ensures random * n as real == i as real
  {
    var q := n as real;
    assert i as real / q * q == i as real;
    i as real / q
  }

  class TemplateTable {
    var rows: map<nat, Template>
    var nextId: nat

    ghost predicate Valid()
      reads this
    {
      forall id :: id in rows ==> id < nextId && rows[id].id == id
    }

    constructor ()
      ensures Valid() && rows == map[] && nextId == 1
    {
      rows := map[];
      nextId := 1;
    }

    /** `prisma.messageTemplate.findMany()`, every row in ascending id order. */
    function All(): (r: seq<Template>)
      reads this
      requires Valid()
      ensures |r| == |rows|
      ensures forall t :: t in r <==> t in rows.Values
      ensures IdsIncreasing(r)
    {
      var r := Tables.RowsInIdOrder(rows, nextId);
      assert forall t :: t in r ==> t in rows.Values by {
        forall t | t in r ensures t in rows.Values {
          var i :| 0 <= i < |r| && r[i] == t;
        }
      }
      assert forall t :: t in rows.Values ==> t in r by {
        forall t | t in rows.Values ensures t in r {
          var id :| id in rows && rows[id] == t;
        }
      }
      r
    }

    /** The `messageTemplates` query: every template in the table, in ascending id order. */
    function MessageTemplates(user: Option<User>): (r: Result<seq<Template>, ResolverError>)
      reads this
      requires Valid()
      ensures r.Err? <==> user.None?
      ensures r.Err? ==> r.error == Unauthorized
      ensures r.Ok? ==> |r.value| == |rows| && (forall t :: t in r.value <==> t in rows.Values) && IdsIncreasing(r.value)
    {
      match RequireUser(user)
      case Err(e) => Err(e)
      case Ok(_) => Ok(All())
    }

    /** The `addMessageTemplate` mutation: stores type, content and design as given, under a fresh id. */
    method AddMessageTemplate(user: Option<User>, kind: string, content: string, design: string)
      returns (r: Result<Template, ResolverError>)
      requires Valid()
      modifies this
      ensures Valid()
      ensures r.Err? <==> user.None?
      ensures r.Err? ==> r.error == Unauthorized && rows == old(rows) && nextId == old(nextId)
      ensures r.Ok? ==>
        && r.value == Template(old(nextId), kind, content, design)
        && old(nextId) !in old(rows)
        && rows == old(rows)[old(nextId) := r.value] && nextId == old(nextId) + 1
    {
      if user.None? {
        return Err(Unauthorized);
      }
      var t := Template(nextId, kind, content, design);
      rows := rows[nextId := t];
      nextId := nextId + 1;
      r := Ok(t);
    }

    /** The `updateMessageTemplate` mutation: replaces content and design only. */
    method UpdateMessageTemplate(user: Option<User>, id: nat, content: string, design: string)
      returns (r: Result<Template, ResolverError>)
      requires Valid()
      modifies this
      ensures Valid()
      ensures user.None? ==> r == Err(Unauthorized)
      ensures user.Some? && id !in old(rows) ==> r == Err(RecordNotFound)
      ensures r.Ok? <==> user.Some? && id in old(rows)
      ensures r.Err? ==> rows == old(rows)
      ensures nextId == old(nextId)
      ensures r.Ok? ==>
        && r.value == old(rows)[id].(content := content, design := design)
        && r.value.id == id && r.value.kind == old(rows)[id].kind
        && rows == old(rows)[id := r.value]
    {
      if user.None? {
        return Err(Unauthorized);
      }
      if id !in rows {
        return Err(RecordNotFound);
      }
      var t := rows[id].(content := content, design := design);
      rows := rows[id := t];
      r := Ok(t);
    }

    /** The `deleteMessageTemplate` mutation: removes that id and answers true. */
    method DeleteMessageTemplate(user: Option<User>, id: nat) returns (r: Result<bool, ResolverError>)
      requires Valid()
      modifies this
      ensures Valid()
      ensures user.None? ==> r == Err(Unauthorized)
      ensures user.Some? && id !in old(rows) ==> r == Err(RecordNotFound)
      ensures r.Ok? <==> user.Some? && id in old(rows)
      ensures r.Ok? ==> r.value && rows == old(rows) - {id}
      ensures r.Err? ==> rows == old(rows)
      ensures nextId == old(nextId)
    {
      if user.None? {
        return Err(Unauthorized);
      }
      if id !in rows {
        return Err(RecordNotFound);
      }
      rows := rows - {id};
      r := Ok(true);
    }

    /**
     * The `sendTestMessage` mutation: sends the content of a random template of
     * the type, verbatim, and answers true whatever the transport did; with no
     * template of that type it throws and sends nothing.
     */
    method SendTestMessage(user: Option<User>, phoneNumber: string, kind: string, random: real, outbox: Sms.Outbox)
      returns (r: Result<bool, ResolverError>)
      requires Valid() && 0.0 <= random < 1.0
      modifies outbox
      ensures user.None? ==> r == Err(Unauthorized)
      ensures user.Some? ==> match PickTestTemplate(All(), kind, random)
        case Err(e) => r == Err(e)
        case Ok(_) => r == Ok(true)
      ensures r.Ok? ==> outbox.sent == old(outbox.sent) + [Sms.Message(phoneNumber, PickTestTemplate(All(), kind, random).value.content)]
      ensures r.Err? ==> outbox.sent == old(outbox.sent)
    {
      if user.None? {
        return Err(Unauthorized);
      }
      var all := All();
      var chosen := PickTestTemplate(all, kind, random);
      if chosen.Err? {
        return Err(chosen.error);
      }
      var message := Sms.Message(phoneNumber, chosen.value.content);
      outbox.Send(phoneNumber, chosen.value.content);
      assert All() == all;
      assert outbox.sent == old(outbox.sent) + [message];
      r := Ok(true);
    }
  }
}
