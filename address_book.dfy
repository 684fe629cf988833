/** The address-book routes: listing the entries a user may see, with an optional search
    term and, for administrators, a company filter; creating an entry; the owner-only
    update and delete; and the administrators' list of company names. Every route runs
    behind the authentication middleware, so the caller is the `req.user` it set, or None. */
module AddressBook {
  import opened Wrappers
  import opened Text
  import opened Query
  import opened Middleware
  import opened Accounts

  /** Where an entry may be used on a request form. */
  datatype EntryType = PICKUP | DROPOFF | BOTH

  function EntryTypeName(t: EntryType): string {
    match t
    case PICKUP => "PICKUP"
    case DROPOFF => "DROPOFF"
    case BOTH => "BOTH"
  }

  /** The entry type spelled exactly `s`; any other spelling is refused by the database. */
  function ParseEntryType(s: string): (r: Option<EntryType>)
    ensures r.Some? <==> s == "PICKUP" || s == "DROPOFF" || s == "BOTH"
    ensures r.Some? ==> EntryTypeName(r.value) == s
    ensures forall t :: r == Some(t) <==> s == EntryTypeName(t)
  {
    if s == "PICKUP" then Some(PICKUP)
    else if s == "DROPOFF" then Some(DROPOFF)
    else if s == "BOTH" then Some(BOTH)
    else None
  }

  /** One address-book row; `userId` is the account that created it. */
  datatype Entry = Entry(
    id: int, userId: int, placeName: string, address: string, addressDetail: Option<string>,
    contactName: Option<string>, contactPhone: Option<string>, kind: EntryType, createdAt: int)

  function EntryId(e: Entry): int { e.id }
  function EntryCreatedAt(e: Entry): int { e.createdAt }

  /** Why an address-book route refuses, with the status it answers. */
  datatype EntryError = NoUser | UnknownCaller | MissingFields | BadId | NoSuchEntry | NotOwner | InvalidType

  function EntryErrorStatus(e: EntryError): int {
    match e
    case NoUser => 401
    case UnknownCaller => 401
    case MissingFields => 400
    case BadId => 400
    case NoSuchEntry => 404
    case NotOwner => 403
    case InvalidType => 500
  }

  // ----- listing -----

  /** A nullable text column holds `term`; a null column never does. */
  predicate FieldHas(field: Option<string>, term: string) {
    field.Some? && Contains(field.value, term)
  }

  /** The search condition: one of the five text columns holds `term`. */
  predicate SearchHit(e: Entry, term: string) {
    || Contains(e.placeName, term) || Contains(e.address, term) || FieldHas(e.addressDetail, term)
    || FieldHas(e.contactName, term) || FieldHas(e.contactPhone, term)
  }

  /** The account that owns `e` has company `company`. */
  predicate OwnerCompanyIs(users: seq<User>, e: Entry, company: string) {
    var owner := FindById(users, e.userId);
    owner.Some? && owner.value.companyName == Some(company)
  }

  /** The `where` object of the list query, with each part optional. */
  datatype EntryWhere = EntryWhere(search: Option<string>, company: Option<string>, ownerId: Option<int>)

  predicate EntryMatches(users: seq<User>, w: EntryWhere, e: Entry) {
    && (w.search.Some? ==> SearchHit(e, w.search.value))
    && (w.company.Some? ==> OwnerCompanyIs(users, e, w.company.value))
    && (w.ownerId.Some? ==> e.userId == w.ownerId.value)
  }

  function EntryKeep(users: seq<User>, w: EntryWhere): Entry -> bool {
    e => EntryMatches(users, w, e)
  }

  /** The search term `q` asks for, after trimming: an empty term asks for nothing. */
  predicate InSearch(q: Option<string>, e: Entry) {
    q.Some? && !IsBlank(q.value) ==> SearchHit(e, Trim(q.value))
  }

  /** Which entries the caller `me` may see: an administrator sees every entry, or those of
      the company named by the trimmed `companyName` when that is not blank; anyone else
      sees the entries of their own company when they have one that is not blank, and
      otherwise only the entries they created. */
  predicate InScope(users: seq<User>, me: User, companyName: Option<string>, e: Entry) {
    if me.role == ADMIN then
      companyName.Some? && !IsBlank(companyName.value) ==> OwnerCompanyIs(users, e, Trim(companyName.value))
    else if me.companyName.Some? && !IsBlank(me.companyName.value) then
      OwnerCompanyIs(users, e, me.companyName.value)
    else
      e.userId == me.id
  }

  predicate Visible(users: seq<User>, me: User, q: Option<string>, companyName: Option<string>, e: Entry) {
    InSearch(q, e) && InScope(users, me, companyName, e)
  }

  function VisibleKeep(users: seq<User>, me: User, q: Option<string>, companyName: Option<string>): Entry -> bool {
    e => Visible(users, me, q, companyName, e)
  }

  /** Builds the `where` of GET /address-book part by part, for the caller `me` and the query
      parameters `q` and `companyName` (None when missing or not a single string). */
  method BuildEntryWhere(users: seq<User>, me: User, q: Option<string>, companyName: Option<string>)
    returns (w: EntryWhere)
    ensures forall e :: EntryMatches(users, w, e) <==> Visible(users, me, q, companyName, e)
  {
    var term := if q.Some? then Trim(q.value) else "";
    var companyFilter: Option<string> := None;
    if companyName.Some? && Trim(companyName.value) != "" {
      companyFilter := Some(Trim(companyName.value));
    }
    w := EntryWhere(None, None, None);
    if term != "" {
      w := w.(search := Some(term));
    }
    if me.role == ADMIN {
      if companyFilter.Some? {
        w := w.(company := companyFilter);
      }
    } else {
      if me.companyName.Some? && me.companyName.value != "" && Trim(me.companyName.value) != "" {
        w := w.(company := me.companyName);
      } else {
        w := w.(ownerId := Some(me.id));
      }
    }
    WhereMeansVisible(users, me, q, companyName, w);
  }

  /** The three parts of an entry `where`, each set from the caller and the query exactly
      as GET /address-book sets it, select the visible entries. */
  lemma WhereMeansVisible(users: seq<User>, me: User, q: Option<string>, companyName: Option<string>, w: EntryWhere)
    requires w.search == if q.Some? && !IsBlank(q.value) then Some(Trim(q.value)) else None
    requires me.role == ADMIN ==>
               && w.ownerId.None?
               && w.company == if companyName.Some? && !IsBlank(companyName.value) then Some(Trim(companyName.value)) else None
    requires me.role != ADMIN ==>
               if me.companyName.Some? && !IsBlank(me.companyName.value)
               then w.company == me.companyName && w.ownerId.None?
               else w.company.None? && w.ownerId == Some(me.id)
    ensures forall e :: EntryMatches(users, w, e) <==> Visible(users, me, q, companyName, e)
  {
  }

  /** GET /address-book: the entries the caller may see that match the search, newest first.
      401 when there is no caller or the caller's account no longer exists. */
  method ListEntries(users: seq<User>, entries: seq<Entry>, user: Option<AuthUser>,
                     q: Option<string>, companyName: Option<string>)
    returns (r: Result<seq<Entry>, EntryError>)
    ensures user.None? ==> r == Failure(NoUser)
    ensures user.Some? && FindById(users, user.value.userId).None? ==> r == Failure(UnknownCaller)
    ensures r.Success? <==> user.Some? && FindById(users, user.value.userId).Some?
    ensures r.Success? ==>
              var me := FindById(users, user.value.userId).value;
              r.value == NewestFirst(entries, VisibleKeep(users, me, q, companyName))
  {
    if user.None? {
      return Failure(NoUser);
    }
    var found := FindById(users, user.value.userId);
    if found.None? {
      return Failure(UnknownCaller);
    }
    var me := found.value;
    var w := BuildEntryWhere(users, me, q, companyName);
    NewestFirstAgree(entries, EntryKeep(users, w), VisibleKeep(users, me, q, companyName));
    r := Success(NewestFirst(entries, EntryKeep(users, w)));
  }

  /** A caller who is not an administrator never sees another company's entries: with a
      company, every listed entry belongs to an account of that company; without one, every
      listed entry is the caller's own. */
  lemma NonAdminIsolation(users: seq<User>, me: User, q: Option<string>, companyName: Option<string>,
                          entries: seq<Entry>, e: Entry)
    requires me.role != ADMIN
    requires e in NewestFirst(entries, VisibleKeep(users, me, q, companyName))
    ensures e in entries
    ensures if me.companyName.Some? && !IsBlank(me.companyName.value)
            then OwnerCompanyIs(users, e, me.companyName.value)
            else e.userId == me.id
  {
    assert VisibleKeep(users, me, q, companyName)(e);
  }

  /** A caller always sees, with no search term, the entries they created themselves. */
  lemma OwnEntriesVisible(users: seq<User>, me: User, companyName: Option<string>, entries: seq<Entry>, e: Entry)
    requires FindById(users, me.id) == Some(me)
    requires e in entries && e.userId == me.id
    requires me.role != ADMIN || companyName.None? || IsBlank(companyName.value)
    ensures e in NewestFirst(entries, VisibleKeep(users, me, None, companyName))
  {
    assert VisibleKeep(users, me, None, companyName)(e);
    NewestFirstComplete(entries, VisibleKeep(users, me, None, companyName), e);
  }

  /** An administrator with no search term and no company filter sees every entry. */
  lemma AdminSeesAll(users: seq<User>, me: User, q: Option<string>, companyName: Option<string>, entries: seq<Entry>)
    requires me.role == ADMIN
    requires q.None? || IsBlank(q.value)
    requires companyName.None? || IsBlank(companyName.value)
    ensures forall e :: e in entries ==> e in NewestFirst(entries, VisibleKeep(users, me, q, companyName))
  {
    forall e | e in entries
      ensures e in NewestFirst(entries, VisibleKeep(users, me, q, companyName))
    {
      assert VisibleKeep(users, me, q, companyName)(e);
      NewestFirstComplete(entries, VisibleKeep(users, me, q, companyName), e);
    }
  }

  /** A listed entry matches a non-blank search term in one of its five text columns. */
  lemma SearchSound(users: seq<User>, me: User, q: string, companyName: Option<string>, entries: seq<Entry>, e: Entry)
    requires !IsBlank(q)
    requires e in NewestFirst(entries, VisibleKeep(users, me, Some(q), companyName))
    ensures SearchHit(e, Trim(q)) && Trim(q) != []
  {
    assert VisibleKeep(users, me, Some(q), companyName)(e);
  }

  /** The list is ordered by creation time, newest first, when the table keeps creation times
      ascending. */
  lemma EntriesNewestFirst(users: seq<User>, me: User, q: Option<string>, companyName: Option<string>, entries: seq<Entry>)
    requires Ascending(entries, EntryCreatedAt)
    ensures Descending(NewestFirst(entries, VisibleKeep(users, me, q, companyName)), EntryCreatedAt)
  {
    NewestFirstDescending(entries, VisibleKeep(users, me, q, companyName), EntryCreatedAt);
  }

  // ----- create and update -----

  /** The body of POST /address-book. */
  datatype EntryBody = EntryBody(
    placeName: Option<string>, address: Option<string>, addressDetail: Option<string>,
    contactName: Option<string>, contactPhone: Option<string>, kind: Option<string>)

  /** `x || null`: an empty string is stored as null. */
  function OrNull(x: Option<string>): (r: Option<string>)
    ensures r.Some? <==> Given(x)
    ensures r.Some? ==> r == x
  {
    if Given(x) then x else None
  }

  /** One field of a PATCH body: left out, sent as null, or sent with a value. */
  datatype Field<T> = Absent | Null | Set(v: T)

  /** `x ?? existing`: null and a missing field both keep the stored value. */
  function Coalesce<T>(f: Field<T>, existing: T): T {
    if f.Set? then f.v else existing
  }

  /** `x !== undefined ? x : existing`: a null field clears the stored value. */
  function Overwrite<T>(f: Field<T>, existing: Option<T>): Option<T> {
    match f
    case Absent => existing
    case Null => None
    case Set(v) => Some(v)
  }

  /** The body of PATCH /address-book/:id. */
  datatype EntryPatch = EntryPatch(
    placeName: Field<string>, address: Field<string>, addressDetail: Field<string>,
    contactName: Field<string>, contactPhone: Field<string>, kind: Field<string>)

  const EmptyPatch := EntryPatch(Absent, Absent, Absent, Absent, Absent, Absent)

  /** The entry after a PATCH, or None when the body names an unknown entry type. The id,
      owner and creation time never change; place name, address and type keep their values
      unless a non-null value is sent; the three optional columns take any value that is
      sent, null included. */
  function Merge(e: Entry, p: EntryPatch): (r: Option<Entry>)
    ensures r.None? <==> p.kind.Set? && ParseEntryType(p.kind.v).None?
    ensures r.Some? ==>
              var m := r.value;
              && m.id == e.id && m.userId == e.userId && m.createdAt == e.createdAt
              && (p.placeName.Set? ==> m.placeName == p.placeName.v)
              && (!p.placeName.Set? ==> m.placeName == e.placeName)
              && (p.address.Set? ==> m.address == p.address.v)
              && (!p.address.Set? ==> m.address == e.address)
              && (p.kind.Set? ==> Some(m.kind) == ParseEntryType(p.kind.v))
              && (!p.kind.Set? ==> m.kind == e.kind)
              && (p.addressDetail.Absent? ==> m.addressDetail == e.addressDetail)
              && (p.addressDetail.Null? ==> m.addressDetail == None)
              && (p.addressDetail.Set? ==> m.addressDetail == Some(p.addressDetail.v))
              && (p.contactName.Absent? ==> m.contactName == e.contactName)
              && (p.contactName.Null? ==> m.contactName == None)
              && (p.contactName.Set? ==> m.contactName == Some(p.contactName.v))
              && (p.contactPhone.Absent? ==> m.contactPhone == e.contactPhone)
              && (p.contactPhone.Null? ==> m.contactPhone == None)
              && (p.contactPhone.Set? ==> m.contactPhone == Some(p.contactPhone.v))
  {
    var kind := if p.kind.Set? then ParseEntryType(p.kind.v) else Some(e.kind);
    if kind.None? then None
    else
      Some(e.(placeName := Coalesce(p.placeName, e.placeName),
              address := Coalesce(p.address, e.address),
              addressDetail := Overwrite(p.addressDetail, e.addressDetail),
              contactName := Overwrite(p.contactName, e.contactName),
              contactPhone := Overwrite(p.contactPhone, e.contactPhone),
              kind := kind.value))
  }

  /** An empty PATCH body changes nothing, and sending the same body twice changes no more
      than sending it once. */
  lemma MergeEmptyAndIdempotent(e: Entry, p: EntryPatch)
    ensures Merge(e, EmptyPatch) == Some(e)
    ensures Merge(e, p).Some? ==> Merge(Merge(e, p).value, p) == Merge(e, p)
  {
  }

  /** The two merge rules differ on null: it keeps a place name but clears a contact name. */
  lemma MergeNullRules(e: Entry)
    requires e.contactName.Some?
    ensures var m := Merge(e, EmptyPatch.(placeName := Null, contactName := Null));
            m.Some? && m.value.placeName == e.placeName && m.value.contactName == None
  {
  }

  /** The entry table. */
  class EntryStore {
    var entries: seq<Entry>
    var nextId: int

    ghost predicate Valid()
      reads this
    {
      Stored(entries, EntryId, EntryCreatedAt, nextId)
    }

    constructor ()
      ensures Valid() && entries == [] && nextId == 1
    {
      entries := [];
      nextId := 1;
    }

    /** POST /address-book at time `now`, which the clock supplies no earlier than the last
        insert. The place name, address and type must be given; the entry belongs to the
        caller and empty optional fields are stored as null. */
    method Create(user: Option<AuthUser>, body: EntryBody, now: int) returns (r: Result<Entry, EntryError>)
      requires Valid()
      requires entries == [] || entries[|entries| - 1].createdAt <= now
      modifies this
      ensures Valid()
      ensures user.None? ==> r == Failure(NoUser)
      ensures user.Some? && !(Given(body.placeName) && Given(body.address) && Given(body.kind)) ==> r == Failure(MissingFields)
      ensures r == Failure(InvalidType) <==>
                user.Some? && Given(body.placeName) && Given(body.address) && Given(body.kind)
                && ParseEntryType(body.kind.value).None?
      ensures r.Failure? ==> unchanged(this)
      ensures r.Success? <==>
                user.Some? && Given(body.placeName) && Given(body.address) && Given(body.kind)
                && ParseEntryType(body.kind.value).Some?
      ensures r.Success? ==>
                && user.Some? && Given(body.placeName) && Given(body.address) && Given(body.kind)
                && var e := r.value;
                && e == Entry(old(nextId), user.value.userId, body.placeName.value, body.address.value,
                              OrNull(body.addressDetail), OrNull(body.contactName), OrNull(body.contactPhone),
                              ParseEntryType(body.kind.value).value, now)
                && entries == old(entries) + [e] && nextId == old(nextId) + 1
    {
      if user.None? {
        return Failure(NoUser);
      }
      if !Given(body.placeName) || !Given(body.address) || !Given(body.kind) {
        return Failure(MissingFields);
      }
      var kind := ParseEntryType(body.kind.value);
      if kind.None? {
        return Failure(InvalidType);
      }
      var e := Entry(nextId, user.value.userId, body.placeName.value, body.address.value,
                     OrNull(body.addressDetail), OrNull(body.contactName), OrNull(body.contactPhone),
                     kind.value, now);
      StoredAppend(entries, EntryId, EntryCreatedAt, nextId, e);
      entries := entries + [e];
      nextId := nextId + 1;
      r := Success(e);
    }

    /** The checks PATCH and DELETE share, in their order: a caller, a numeric id, an
        existing entry, and the caller owning it. On success, the entry's position. */
    function OwnedEntry(user: Option<AuthUser>, id: Option<int>): (r: Result<nat, EntryError>)
      reads this
      ensures user.None? ==> r == Failure(NoUser)
      ensures user.Some? && id.None? ==> r == Failure(BadId)
      ensures r == Failure(NoSuchEntry) <==>
                user.Some? && id.Some? && forall i :: 0 <= i < |entries| ==> entries[i].id != id.value
      ensures r == Failure(NotOwner) <==>
                && user.Some? && id.Some? && IndexOf(entries, EntryId, id.value).Some?
                && entries[IndexOf(entries, EntryId, id.value).value].userId != user.value.userId
      ensures r.Success? <==>
                && user.Some? && id.Some? && IndexOf(entries, EntryId, id.value).Some?
                && entries[IndexOf(entries, EntryId, id.value).value].userId == user.value.userId
      ensures r.Success? ==>
                && user.Some? && id.Some? && r.value < |entries|
                && entries[r.value].id == id.value && entries[r.value].userId == user.value.userId
    {
      if user.None? then Failure(NoUser)
      else if id.None? then Failure(BadId)
      else
        match IndexOf(entries, EntryId, id.value)
        case None => Failure(NoSuchEntry)
        case Some(k) =>
          if entries[k].userId != user.value.userId then Failure(NotOwner) else Success(k)
    }

    /** PATCH /address-book/:id: only the owner may change an entry, and then only by the
        merge rules; every refusal leaves the table as it was. */
    method Update(user: Option<AuthUser>, id: Option<int>, patch: EntryPatch) returns (r: Result<Entry, EntryError>)
      requires Valid()
      modifies this
      ensures Valid() && nextId == old(nextId)
      ensures old(OwnedEntry(user, id)).Failure? ==> r == Failure(old(OwnedEntry(user, id)).error)
      ensures r.Failure? ==> entries == old(entries)
      ensures old(OwnedEntry(user, id)).Success? ==>
                var k := old(OwnedEntry(user, id)).value;
                var merged := Merge(old(entries)[k], patch);
                if merged.None? then r == Failure(InvalidType)
                else r == Success(merged.value) && entries == old(entries)[k := merged.value]
    {
      var owned := OwnedEntry(user, id);
      if owned.Failure? {
        return Failure(owned.error);
      }
      var k := owned.value;
      var merged := Merge(entries[k], patch);
      if merged.None? {
        return Failure(InvalidType);
      }
      StoredReplace(entries, EntryId, EntryCreatedAt, nextId, k, merged.value);
      entries := entries[k := merged.value];
      r := Success(merged.value);
    }

    /** DELETE /address-book/:id: only the owner may delete an entry; exactly that entry goes
        and the others stay in order. Every refusal leaves the table as it was. */
    method Delete(user: Option<AuthUser>, id: Option<int>) returns (r: Result<(), EntryError>)
      requires Valid()
      modifies this
      ensures Valid() && nextId == old(nextId)
      ensures old(OwnedEntry(user, id)).Failure? ==>
                r == Failure(old(OwnedEntry(user, id)).error) && entries == old(entries)
      ensures old(OwnedEntry(user, id)).Success? ==>
                var k := old(OwnedEntry(user, id)).value;
                && r == Success(())
                && entries == old(entries)[..k] + old(entries)[k + 1..]
                && forall x :: x in entries <==> x in old(entries) && x.id != id.value
    {
      var owned := OwnedEntry(user, id);
      if owned.Failure? {
        return Failure(owned.error);
      }
      var k := owned.value;
      StoredRemove(entries, EntryId, EntryCreatedAt, nextId, k);
      StoredRemoveMembers(entries, EntryId, EntryCreatedAt, nextId, k);
      entries := entries[..k] + entries[k + 1..];
      r := Success(());
    }
  }

  // ----- companies -----

  /** Strictly ascending by code point: sorted and without repeats. */
  predicate StrictlySorted(s: seq<string>) {
    forall i, j :: 0 <= i < j < |s| ==> Less(s[i], s[j])
  }

  /** Adds `x` to a strictly sorted list, keeping it strictly sorted. */
  function Insert(s: seq<string>, x: string): (r: seq<string>)
    requires StrictlySorted(s)
    ensures StrictlySorted(r)
    ensures forall y :: y in r <==> y in s || y == x
  {
    if s == [] then [x]
    else if s[0] == x then s
    else if Less(x, s[0]) then
      assert forall j :: 0 < j < |s| ==> Less(x, s[j]) by {
        forall j | 0 < j < |s| ensures Less(x, s[j]) {
          LessTransitive(x, s[0], s[j]);
        }
      }
      [x] + s
    else
      LessTotal(x, s[0]);
      var rest := Insert(s[1..], x);
      assert forall y :: y in rest ==> Less(s[0], y);
      [s[0]] + rest
  }

  /** The company names of `users`, distinct and in ascending order, without null and without
      the empty name. */
  function CompanyNames(users: seq<User>): (r: seq<string>)
    ensures StrictlySorted(r)
    ensures forall c :: c in r <==> c != [] && exists i :: 0 <= i < |users| && users[i].companyName == Some(c)
  {
    if users == [] then []
    else
      var rest := CompanyNames(users[..|users| - 1]);
      var last := users[|users| - 1];
      assert forall i :: 0 <= i < |users| - 1 ==> users[..|users| - 1][i] == users[i];
      if last.companyName.Some? && last.companyName.value != [] then Insert(rest, last.companyName.value) else rest
  }

  /** GET /address-book/companies: administrators only (403 for anyone else). */
  function Companies(user: Option<AuthUser>, users: seq<User>): (r: Result<seq<string>, int>)
    ensures r.Failure? <==> RequireRole([ADMIN], user) == Forbidden
    ensures r.Failure? ==> r.error == 403
    ensures r.Success? ==> r.value == CompanyNames(users)
  {
    if RequireRole([ADMIN], user) == Forbidden then Failure(403) else Success(CompanyNames(users))
  }

  /** A company name is listed once, whichever and however many accounts carry it. */
  lemma CompanyNamesDistinct(users: seq<User>)
    ensures forall i, j :: 0 <= i < j < |CompanyNames(users)| ==> CompanyNames(users)[i] != CompanyNames(users)[j]
  {
    var r := CompanyNames(users);
    forall i, j | 0 <= i < j < |r|
      ensures r[i] != r[j]
    {
      LessIrreflexive(r[i]);
    }
  }
}
