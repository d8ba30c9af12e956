/**
 * The contact resolvers of backend/src/resolvers/contactResolver.ts over the
 * Prisma `Contact` table. `parse` stands for `new Date(s)` on a date argument
 * (the local calendar date it denotes, or `None` for an Invalid Date, which
 * Prisma refuses); the GraphQL `ID` argument is taken as the number
 * `Number(args.id)` yields.
 */
module ContactResolver {
  import opened Wrappers
  import opened Calendar
  import opened Context
  import Tables

  datatype Contact = Contact(
    id: nat,
    name: string,
    phoneNumber: string,
    birthday: Option<CivilDate>,
    anniversary: Option<CivilDate>,
    userId: int)

  /** The arguments of `addContact` and `updateContact` as GraphQL delivers them. */
  datatype ContactArgs = ContactArgs(
    name: string,
    phoneNumber: string,
    birthday: Option<string>,
    anniversary: Option<string>)

  /**
   * `arg ? new Date(arg) : null`: a missing or empty argument is stored as null;
   * any other is read as a date, and one that is not a date makes Prisma throw.
   */
  function StoredDate(arg: Option<string>, parse: string -> Option<CivilDate>): (r: Result<Option<CivilDate>, ResolverError>)
    ensures arg.None? || arg.value == "" ==> r == Ok(None)
    ensures arg.Some? && arg.value != "" && parse(arg.value).Some? ==> r == Ok(parse(arg.value))
    ensures arg.Some? && arg.value != "" && parse(arg.value).None? ==> r == Err(InvalidDate)
  {
    if arg.None? || arg.value == "" then Ok(None)
    else match parse(arg.value)
      case None => Err(InvalidDate)
      case Some(d) => Ok(Some(d))
  }

  predicate DatesReadable(args: ContactArgs, parse: string -> Option<CivilDate>) {
    StoredDate(args.birthday, parse).Ok? && StoredDate(args.anniversary, parse).Ok?
  }

  predicate IdsIncreasing(cs: seq<Contact>) {
    forall i, j :: 0 <= i < j < |cs| ==> cs[i].id < cs[j].id
  }

  /** `where: { userId }`: the contacts of one owner, in the order given. */
  function OwnedBy(cs: seq<Contact>, userId: int): (r: seq<Contact>)
    ensures forall c :: c in r <==> c in cs && c.userId == userId
    ensures IdsIncreasing(cs) ==> IdsIncreasing(r)
  {
    if cs == [] then []
    else
      var rest := OwnedBy(cs[1..], userId);
      assert cs == [cs[0]] + cs[1..];
      IncreasingCons(cs, rest);
      (if cs[0].userId == userId then [cs[0]] else []) + rest
  }

  /** The first contact of an increasing list goes in front of any increasing selection of the others. */
  lemma IncreasingCons(cs: seq<Contact>, rest: seq<Contact>)
    requires cs != [] && forall c :: c in rest ==> c in cs[1..]
    requires IdsIncreasing(cs[1..]) ==> IdsIncreasing(rest)
    ensures IdsIncreasing(cs) ==> IdsIncreasing([cs[0]] + rest)
  {
    if IdsIncreasing(cs) {
      assert IdsIncreasing(cs[1..]) by {
        forall i, j | 0 <= i < j < |cs[1..]| ensures cs[1..][i].id < cs[1..][j].id {
          assert cs[1..][i] == cs[i + 1] && cs[1..][j] == cs[j + 1];
        }
      }
      var s := [cs[0]] + rest;
      forall i, j | 0 <= i < j < |s| ensures s[i].id < s[j].id {
        assert s[j] == rest[j - 1] && s[j] in cs[1..];
        if i > 0 {
          assert s[i] == rest[i - 1];
        } else {
          var k :| 0 <= k < |cs[1..]| && cs[1..][k] == s[j];
          assert cs[k + 1] == s[j];
        }
      }
    }
  }

  class ContactTable {
    var rows: map<nat, Contact>
    /** The next value of the autoincrement id sequence; ids are never reused. */
    var nextId: nat

    ghost predicate Valid()
      reads this
    {
      forall id :: id in rows ==> id < nextId && rows[id].id == id
    }

    constructor ()
      ensures Valid() && rows == map[] && nextId == 1
    {
      rows := map[];
      nextId := 1;
    }

    /** `prisma.contact.findMany()`: every contact of every user, in ascending id order. */
    function All(): (r: seq<Contact>)
      reads this
      requires Valid()
      ensures |r| == |rows|
      ensures forall c :: c in r <==> c in rows.Values
      ensures IdsIncreasing(r)
    {
      var r := Tables.RowsInIdOrder(rows, nextId);
      assert forall c :: c in r ==> c in rows.Values by {
        forall c | c in r ensures c in rows.Values {
          var i :| 0 <= i < |r| && r[i] == c;
        }
      }
      assert forall c :: c in rows.Values ==> c in r by {
        forall c | c in rows.Values ensures c in r {
          var id :| id in rows && rows[id] == c;
        }
      }
      r
    }

    /** The `contacts` query: exactly the caller's contacts, in ascending id order. */
    function Contacts(user: Option<User>): (r: Result<seq<Contact>, ResolverError>)
      reads this
      requires Valid()
      ensures user.None? ==> r == Err(Unauthorized)
      ensures user.Some? ==> r.Ok?
      ensures r.Ok? ==> forall c :: c in r.value <==> c in rows.Values && c.userId == user.value.id
      ensures r.Ok? ==> IdsIncreasing(r.value)
    {
      match RequireUser(user)
      case Err(e) => Err(e)
      case Ok(u) => Ok(OwnedBy(All(), u.id))
    }

    /** The `addContact` mutation: a new row owned by the caller, with a fresh id. */
    method AddContact(user: Option<User>, args: ContactArgs, parse: string -> Option<CivilDate>)
      returns (r: Result<Contact, ResolverError>)
      requires Valid()
      modifies this
      ensures Valid()
      ensures user.None? ==> r == Err(Unauthorized)
      ensures user.Some? && !DatesReadable(args, parse) ==> r == Err(InvalidDate)
      ensures r.Ok? <==> user.Some? && DatesReadable(args, parse)
      ensures r.Err? ==> rows == old(rows) && nextId == old(nextId)
      ensures r.Ok? ==>
        && r.value == Contact(old(nextId), args.name, args.phoneNumber,
                              StoredDate(args.birthday, parse).value, StoredDate(args.anniversary, parse).value,
                              user.value.id)
        && old(nextId) !in old(rows)
        && rows == old(rows)[old(nextId) := r.value] && nextId == old(nextId) + 1
    {
      if user.None? {
        return Err(Unauthorized);
      }
      var birthday := StoredDate(args.birthday, parse);
      var anniversary := StoredDate(args.anniversary, parse);
      if birthday.Err? || anniversary.Err? {
        return Err(InvalidDate);
      }
      var c := Contact(nextId, args.name, args.phoneNumber, birthday.value, anniversary.value, user.value.id);
      rows := rows[nextId := c];
      nextId := nextId + 1;
      r := Ok(c);
    }

    /**
     * The `updateContact` mutation: rewrites name, phone number and both dates of
     * the row with that id, whoever owns it; the owner stays the same.
     */
    method UpdateContact(user: Option<User>, id: nat, args: ContactArgs, parse: string -> Option<CivilDate>)
      returns (r: Result<Contact, ResolverError>)
      requires Valid()
      modifies this
      ensures Valid()
      ensures user.None? ==> r == Err(Unauthorized)
      ensures user.Some? && !DatesReadable(args, parse) ==> r == Err(InvalidDate)
      ensures user.Some? && DatesReadable(args, parse) && id !in old(rows) ==> r == Err(RecordNotFound)
      ensures r.Ok? <==> user.Some? && DatesReadable(args, parse) && id in old(rows)
      ensures r.Err? ==> rows == old(rows)
      ensures nextId == old(nextId)
      ensures r.Ok? ==>
        && r.value == old(rows)[id].(name := args.name, phoneNumber := args.phoneNumber,
                                     birthday := StoredDate(args.birthday, parse).value,
                                     anniversary := StoredDate(args.anniversary, parse).value)
        && r.value.id == id && r.value.userId == old(rows)[id].userId
        && rows == old(rows)[id := r.value]
    {
      if user.None? {
        return Err(Unauthorized);
      }
      var birthday := StoredDate(args.birthday, parse);
      var anniversary := StoredDate(args.anniversary, parse);
      if birthday.Err? || anniversary.Err? {
        return Err(InvalidDate);
      }
      if id !in rows {
        return Err(RecordNotFound);
      }
      var c := rows[id].(name := args.name, phoneNumber := args.phoneNumber,
                         birthday := birthday.value, anniversary := anniversary.value);
      rows := rows[id := c];
      r := Ok(c);
    }

    /** The `deleteContact` mutation: removes the row with that id, whoever owns it, and answers true. */
    method DeleteContact(user: Option<User>, id: nat) returns (r: Result<bool, ResolverError>)
      requires Valid()
      modifies this
      ensures Valid()
      ensures user.None? ==> r == Err(Unauthorized)
      ensures user.Some? && id !in old(rows) ==> r == Err(RecordNotFound)
      ensures r.Ok? <==> user.Some? && id in old(rows)
      ensures r.Ok? ==> r.value && rows == old(rows) - {id}
      ensures r.Err? ==> rows == old(rows)
      ensures nextId == old(nextId)
    {
      if user.None? {
        return Err(Unauthorized);
      }
      if id !in rows {
        return Err(RecordNotFound);
      }
      rows := rows - {id};
      r := Ok(true);
    }
  }
}
