/**
 * The catalog service (services/catalog/src/index.js): the medicine schema,
 * the administrator gate, the cached and searchable listing, and the create,
 * update and delete handlers with their cache invalidation.
 *
 * The `medicines` table is a sequence in id order; the Redis cache is a map
 * from key to the cached listing. The 30-second expiry is not modelled.
 */
module CatalogService {
  import opened Wrappers
  import opened Text
  import opened Tokens
  import opened SqlLike

  // ---------------------------------------------------------------------------
  // Request schema
  // ---------------------------------------------------------------------------

  /** A property of the JSON body: missing, present with the expected JSON type, or present with another type. */
  datatype Field<T> = Absent | Given(value: T) | Mistyped

  /** The body of a create or update request; JSON numbers are exact reals here. */
  datatype MedBody = MedBody(name: Field<string>, description: Field<string>, price: Field<real>, stock: Field<real>)

  /** `z.string().min(2)`: zod counts the JavaScript length, in UTF-16 code units. */
  predicate NameOk(name: string) { Utf16Length(name) >= 2 }

  predicate PriceOk(price: real) { price >= 0.0 }

  predicate StockOk(stock: real) { stock.Floor as real == stock && stock >= 0.0 }

  /** A body the full schema accepted. */
  datatype NewMed = NewMed(name: string, description: Option<string>, price: real, stock: int)

  /** `medSchema.parse`: name, price and stock are required, description optional. */
  function MedSchema(b: MedBody): (r: Option<NewMed>)
    ensures r.Some? <==>
      && b.name.Given? && NameOk(b.name.value)
      && !b.description.Mistyped?
      && b.price.Given? && PriceOk(b.price.value)
      && b.stock.Given? && StockOk(b.stock.value)
    ensures r.Some? ==>
      && r.value.name == b.name.value
      && r.value.price == b.price.value
      && r.value.stock as real == b.stock.value
      && r.value.stock >= 0
      && (r.value.description.Some? <==> b.description.Given?)
      && (b.description.Given? ==> r.value.description.value == b.description.value)
  {
    if b.name.Given? && NameOk(b.name.value) && !b.description.Mistyped?
       && b.price.Given? && PriceOk(b.price.value) && b.stock.Given? && StockOk(b.stock.value)
    then Some(NewMed(b.name.value, if b.description.Given? then Some(b.description.value) else None,
                     b.price.value, b.stock.value.Floor))
    else None
  }

  /** A body the partial schema accepted: only the supplied fields are present. */
  datatype MedPatch = MedPatch(name: Option<string>, description: Option<string>, price: Option<real>, stock: Option<int>)

  /** `medSchema.partial().parse`: every field optional, each supplied field checked as in the full schema. */
  function PatchSchema(b: MedBody): (r: Option<MedPatch>)
    ensures r.Some? <==>
      && !b.name.Mistyped? && (b.name.Given? ==> NameOk(b.name.value))
      && !b.description.Mistyped?
      && !b.price.Mistyped? && (b.price.Given? ==> PriceOk(b.price.value))
      && !b.stock.Mistyped? && (b.stock.Given? ==> StockOk(b.stock.value))
    ensures r.Some? ==>
      && (r.value.name.Some? <==> b.name.Given?) && (b.name.Given? ==> r.value.name.value == b.name.value)
      && (r.value.description.Some? <==> b.description.Given?)
      && (b.description.Given? ==> r.value.description.value == b.description.value)
      && (r.value.price.Some? <==> b.price.Given?) && (b.price.Given? ==> r.value.price.value == b.price.value)
      && (r.value.stock.Some? <==> b.stock.Given?) && (b.stock.Given? ==> r.value.stock.value as real == b.stock.value)
  {
    if !b.name.Mistyped? && (b.name.Given? ==> NameOk(b.name.value))
       && !b.description.Mistyped?
       && !b.price.Mistyped? && (b.price.Given? ==> PriceOk(b.price.value))
       && !b.stock.Mistyped? && (b.stock.Given? ==> StockOk(b.stock.value))
    then Some(MedPatch(
      if b.name.Given? then Some(b.name.value) else None,
      if b.description.Given? then Some(b.description.value) else None,
      if b.price.Given? then Some(b.price.value) else None,
      if b.stock.Given? then Some(b.stock.value.Floor) else None))
    else None
  }

  /**
   * The create schema rejects a one-character name, a negative price and a
   * fractional or negative stock; whatever it accepts, the update schema
   * accepts too.
   */
  lemma SchemaBounds(b: MedBody)
    ensures b.name.Given? && Utf16Length(b.name.value) < 2 ==> MedSchema(b).None? && PatchSchema(b).None?
    ensures b.price.Given? && b.price.value < 0.0 ==> MedSchema(b).None? && PatchSchema(b).None?
    ensures b.stock.Given? && (b.stock.value < 0.0 || b.stock.value.Floor as real != b.stock.value) ==>
      MedSchema(b).None? && PatchSchema(b).None?
    ensures MedSchema(b).Some? ==> PatchSchema(b).Some?
  {
  }

  /**
   * The name bound counts UTF-16 units: a single pill emoji, one character
   * outside the Basic Multilingual Plane, is long enough, and a single ASCII
   * letter is not.
   */
  lemma NameBoundCountsUtf16Units()
    ensures NameOk("\U{1F48A}") && |"\U{1F48A}"| == 1
    ensures !NameOk("a")
  {
    assert "\U{1F48A}"[..0] == "";
    assert "a"[..0] == "";
  }

  // ---------------------------------------------------------------------------
  // Administrator gate
  // ---------------------------------------------------------------------------

  datatype Gate = Admitted(claims: Claims) | Denied(status: int, error: string)

  /** The token requireAdmin hands to jwt.verify: the header after `Bearer `, or "" without that prefix. */
  function AdminToken(authorization: string): string {
    if StartsWith(authorization, BearerPrefix) then authorization[|BearerPrefix|..] else ""
  }

  /**
   * requireAdmin: `verify` yields the claims of a token whose signature
   * checks, and None where jwt.verify throws.
   */
  function RequireAdmin(authorization: string, verify: string -> Option<Claims>): Gate {
    match verify(AdminToken(authorization))
    case None => Denied(401, "unauthorized")
    case Some(payload) => if payload.role != "ADMIN" then Denied(403, "forbidden") else Admitted(payload)
  }

  /**
   * The gate answers 401 exactly when verification fails, 403 exactly when a
   * verified token's role is not `ADMIN`, and admits only an `ADMIN` token.
   * A header without the `Bearer ` prefix is verified as the empty token,
   * which jwt.verify refuses, so such a header gets 401.
   */
  lemma RequireAdminSpec(authorization: string, verify: string -> Option<Claims>)
    ensures var g := RequireAdmin(authorization, verify);
      var v := verify(AdminToken(authorization));
      && (g == Denied(401, "unauthorized") <==> v.None?)
      && (g == Denied(403, "forbidden") <==> v.Some? && v.value.role != "ADMIN")
      && (g.Admitted? <==> v.Some? && v.value.role == "ADMIN")
      && (g.Admitted? ==> g.claims == v.value)
    ensures !StartsWith(authorization, BearerPrefix) ==>
      RequireAdmin(authorization, verify) == RequireAdmin(BearerPrefix, verify)
    ensures !StartsWith(authorization, BearerPrefix) && verify("") == None ==>
      RequireAdmin(authorization, verify) == Denied(401, "unauthorized")
  {
    assert (BearerPrefix)[|BearerPrefix|..] == "";
  }

  // ---------------------------------------------------------------------------
  // The medicines table
  // ---------------------------------------------------------------------------

  datatype Medicine = Medicine(id: nat, name: string, description: string, price: real, stock: int)

  /** Ids strictly increase along the table, as a serial key inserted in order gives. */
  predicate Ascending(table: seq<Medicine>) {
    forall i, j :: 0 <= i < j < |table| ==> table[i].id < table[j].id
  }

  predicate HasId(table: seq<Medicine>, id: int) {
    exists i :: 0 <= i < |table| && table[i].id == id
  }

  /** `DELETE FROM medicines WHERE id = id` */
  function RemoveId(table: seq<Medicine>, id: int): (r: seq<Medicine>)
    ensures forall m :: m in r <==> m in table && m.id != id
    ensures |r| <= |table|
    ensures Ascending(table) ==> Ascending(r)
  {
    if |table| == 0 then []
    else
      var prefix := table[..|table| - 1];
      var last := table[|table| - 1];
      var rest := RemoveId(prefix, id);
      assert forall m :: m in table <==> m in prefix || m == last;
      assert Ascending(table) ==> forall m :: m in prefix ==> m.id < last.id;
      if last.id == id then rest else rest + [last]
  }

  // ---------------------------------------------------------------------------
  // The update statement
  // ---------------------------------------------------------------------------

  datatype Column = NameColumn | DescriptionColumn | PriceColumn | StockColumn

  function ColumnName(c: Column): string {
    match c
    case NameColumn => "name"
    case DescriptionColumn => "description"
    case PriceColumn => "price"
    case StockColumn => "stock"
  }

  /** A bound parameter. */
  datatype SqlValue = Text(s: string) | Decimal(r: real) | Integer(n: int)

  /** One `[k, v]` of `Object.entries(data)`. */
  datatype Entry = Entry(column: Column, value: SqlValue)

  function NameEntry(p: MedPatch): seq<Entry> {
    if p.name.Some? then [Entry(NameColumn, Text(p.name.value))] else []
  }

  function DescriptionEntry(p: MedPatch): seq<Entry> {
    if p.description.Some? then [Entry(DescriptionColumn, Text(p.description.value))] else []
  }

  function PriceEntry(p: MedPatch): seq<Entry> {
    if p.price.Some? then [Entry(PriceColumn, Decimal(p.price.value))] else []
  }

  function StockEntry(p: MedPatch): seq<Entry> {
    if p.stock.Some? then [Entry(StockColumn, Integer(p.stock.value))] else []
  }

  /** `Object.entries(data)`: the supplied fields, in the schema's key order. */
  function Entries(p: MedPatch): seq<Entry> {
    NameEntry(p) + DescriptionEntry(p) + PriceEntry(p) + StockEntry(p)
  }

  /** `k=$i`: the column and the placeholder number of one `SET` item. */
  datatype Clause = Clause(column: Column, param: nat)

  datatype UpdateStatement = UpdateStatement(clauses: seq<Clause>, idParam: nat, values: seq<SqlValue>)

  /**
   * The statement builder: one `k=$i` per entry with `i` counting from 1,
   * the entry values in order, then the id bound at `$(n+1)`. None is the
   * `no fields` answer for an empty patch.
   */
  method BuildUpdate(entries: seq<Entry>, id: int) returns (st: Option<UpdateStatement>)
    ensures st.None? <==> |entries| == 0
    ensures st.Some? ==>
      && |st.value.clauses| == |entries|
      && (forall j :: 0 <= j < |entries| ==> st.value.clauses[j] == Clause(entries[j].column, j + 1))
      && st.value.idParam == |entries| + 1
      && |st.value.values| == |entries| + 1
      && (forall j :: 0 <= j < |entries| ==> st.value.values[j] == entries[j].value)
      && st.value.values[|entries|] == Integer(id)
  {
    var clauses: seq<Clause> := [];
    var values: seq<SqlValue> := [];
    var idx := 1;
    for i := 0 to |entries|
      invariant idx == i + 1
      invariant |clauses| == i && |values| == i
      invariant forall j :: 0 <= j < i ==> clauses[j] == Clause(entries[j].column, j + 1)
      invariant forall j :: 0 <= j < i ==> values[j] == entries[j].value
    {
      clauses := clauses + [Clause(entries[i].column, idx)];
      idx := idx + 1;
      values := values + [entries[i].value];
    }
    if |clauses| == 0 {
      return None;
    }
    values := values + [Integer(id)];
    st := Some(UpdateStatement(clauses, idx, values));
  }

  // ---------------------------------------------------------------------------
  // What the database does with the statement
  // ---------------------------------------------------------------------------

  /** `column = value` on one row; a value of the wrong type changes nothing. */
  function Assign(m: Medicine, c: Column, v: SqlValue): Medicine {
    match (c, v)
    case (NameColumn, Text(s)) => m.(name := s)
    case (DescriptionColumn, Text(s)) => m.(description := s)
    case (PriceColumn, Decimal(r)) => m.(price := r)
    case (StockColumn, Integer(n)) => m.(stock := n)
    case _ => m
  }

  /** The `SET` list, each clause taking the value bound to its placeholder. */
  function ApplyClauses(m: Medicine, clauses: seq<Clause>, values: seq<SqlValue>): Medicine {
    if |clauses| == 0 then m
    else
      var c := clauses[|clauses| - 1];
      var before := ApplyClauses(m, clauses[..|clauses| - 1], values);
      if 1 <= c.param <= |values| then Assign(before, c.column, values[c.param - 1]) else before
  }

  /** The row matches `WHERE id=$idParam`. */
  predicate Targets(st: UpdateStatement, m: Medicine) {
    1 <= st.idParam <= |st.values| && st.values[st.idParam - 1] == Integer(m.id)
  }

  /** The table after the statement. */
  function RunUpdate(table: seq<Medicine>, st: UpdateStatement): seq<Medicine> {
    seq(|table|, i requires 0 <= i < |table| =>
      if Targets(st, table[i]) then ApplyClauses(table[i], st.clauses, st.values) else table[i])
  }

  /** The intended effect of a patch on a row: each supplied field replaced. */
  function Merge(m: Medicine, p: MedPatch): Medicine {
    m.(
      name := if p.name.Some? then p.name.value else m.name,
      description := if p.description.Some? then p.description.value else m.description,
      price := if p.price.Some? then p.price.value else m.price,
      stock := if p.stock.Some? then p.stock.value else m.stock)
  }

  /** The entries applied one after the other. */
  function MergeEntries(m: Medicine, entries: seq<Entry>): Medicine {
    if |entries| == 0 then m
    else
      var e := entries[|entries| - 1];
      Assign(MergeEntries(m, entries[..|entries| - 1]), e.column, e.value)
  }

  lemma {:induction false} MergeEntriesAppend(m: Medicine, a: seq<Entry>, b: seq<Entry>)
    ensures MergeEntries(m, a + b) == MergeEntries(MergeEntries(m, a), b)
    decreases |b|
  {
    if |b| == 0 {
      assert a + b == a;
    } else {
      assert (a + b)[..|a + b| - 1] == a + b[..|b| - 1];
      MergeEntriesAppend(m, a, b[..|b| - 1]);
    }
  }

  lemma MergeEntriesSingle(m: Medicine, e: seq<Entry>)
    requires |e| <= 1
    ensures |e| == 1 ==> MergeEntries(m, e) == Assign(m, e[0].column, e[0].value)
    ensures |e| == 0 ==> MergeEntries(m, e) == m
  {
    if |e| == 1 {
      assert e[..0] == [];
    }
  }

  /** Applying the patch's entries in order is the intended merge. */
  lemma EntriesMerge(m: Medicine, p: MedPatch)
    ensures MergeEntries(m, Entries(p)) == Merge(m, p)
  {
    EntriesInSequence(m, p);
    var m1 := MergeEntries(m, NameEntry(p));
    var m2 := MergeEntries(m1, DescriptionEntry(p));
    var m3 := MergeEntries(m2, PriceEntry(p));
    NameStep(m, p);
    DescriptionStep(m1, p);
    PriceStep(m2, p);
    StockStep(m3, p);
  }

  lemma NameStep(m: Medicine, p: MedPatch)
    ensures MergeEntries(m, NameEntry(p)) == m.(name := if p.name.Some? then p.name.value else m.name)
  {
    MergeEntriesSingle(m, NameEntry(p));
  }

  lemma DescriptionStep(m: Medicine, p: MedPatch)
    ensures MergeEntries(m, DescriptionEntry(p)) ==
      m.(description := if p.description.Some? then p.description.value else m.description)
  {
    MergeEntriesSingle(m, DescriptionEntry(p));
  }

  lemma PriceStep(m: Medicine, p: MedPatch)
    ensures MergeEntries(m, PriceEntry(p)) == m.(price := if p.price.Some? then p.price.value else m.price)
  {
    MergeEntriesSingle(m, PriceEntry(p));
  }

  lemma StockStep(m: Medicine, p: MedPatch)
    ensures MergeEntries(m, StockEntry(p)) == m.(stock := if p.stock.Some? then p.stock.value else m.stock)
  {
    MergeEntriesSingle(m, StockEntry(p));
  }

  /** The four groups of entries apply one after the other. */
  lemma EntriesInSequence(m: Medicine, p: MedPatch)
    ensures MergeEntries(m, Entries(p)) ==
      MergeEntries(MergeEntries(MergeEntries(MergeEntries(m, NameEntry(p)), DescriptionEntry(p)), PriceEntry(p)), StockEntry(p))
  {
    var n, d, pr, s := NameEntry(p), DescriptionEntry(p), PriceEntry(p), StockEntry(p);
    MergeEntriesAppend(m, n + d + pr, s);
    MergeEntriesAppend(m, n + d, pr);
    MergeEntriesAppend(m, n, d);
  }

  /** Clause `j` bound to `$(j+1)`, holding entry `j`'s value, applies the entries in order. */
  lemma {:induction false} ClausesApplyEntries(m: Medicine, entries: seq<Entry>, clauses: seq<Clause>, values: seq<SqlValue>)
    requires |clauses| == |entries| <= |values|
    requires forall j :: 0 <= j < |entries| ==> clauses[j] == Clause(entries[j].column, j + 1)
    requires forall j :: 0 <= j < |entries| ==> values[j] == entries[j].value
    ensures ApplyClauses(m, clauses, values) == MergeEntries(m, entries)
    decreases |entries|
  {
    if |entries| > 0 {
      var n := |entries|;
      ClausesApplyEntries(m, entries[..n - 1], clauses[..n - 1], values);
      assert clauses[n - 1] == Clause(entries[n - 1].column, n);
    }
  }

  /** The built statement has the same meaning as the intended merge. */
  lemma {:induction false} StatementMeansMerge(m: Medicine, p: MedPatch, id: int, st: UpdateStatement)
    requires |st.clauses| == |Entries(p)|
    requires forall j :: 0 <= j < |Entries(p)| ==> st.clauses[j] == Clause(Entries(p)[j].column, j + 1)
    requires st.idParam == |Entries(p)| + 1 && |st.values| == |Entries(p)| + 1
    requires forall j :: 0 <= j < |Entries(p)| ==> st.values[j] == Entries(p)[j].value
    requires st.values[|Entries(p)|] == Integer(id)
    ensures ApplyClauses(m, st.clauses, st.values) == Merge(m, p)
    ensures Targets(st, m) <==> m.id == id
  {
    ClausesApplyEntries(m, Entries(p), st.clauses, st.values);
    EntriesMerge(m, p);
  }

  /** The table with the patch merged into the row with that id. */
  function MergeRow(table: seq<Medicine>, id: int, p: MedPatch): (r: seq<Medicine>)
    ensures |r| == |table|
    ensures forall i :: 0 <= i < |table| ==> r[i].id == table[i].id
    ensures Ascending(table) ==> Ascending(r)
  {
    seq(|table|, i requires 0 <= i < |table| => if table[i].id == id then Merge(table[i], p) else table[i])
  }

  /** A patch with no field is the only one the builder turns down. */
  lemma EntriesEmptyIff(p: MedPatch)
    ensures |Entries(p)| == 0 <==> p == MedPatch(None, None, None, None)
  {
  }

  // ---------------------------------------------------------------------------
  // Search
  // ---------------------------------------------------------------------------

  const MedsPrefix: string := "meds:"

  /** The rows whose lower-cased name or description is `LIKE` the pattern, in table order. */
  function Matching(table: seq<Medicine>, pattern: string): (r: seq<Medicine>)
    ensures forall m :: m in r <==> m in table && (LikeMatch(Lower(m.name), pattern) || LikeMatch(Lower(m.description), pattern))
  {
    if |table| == 0 then []
    else
      var m := table[0];
      (if LikeMatch(Lower(m.name), pattern) || LikeMatch(Lower(m.description), pattern) then [m] else [])
        + Matching(table[1..], pattern)
  }

  /** The listing query for the lower-cased search text `q`: every row when `q` is empty. */
  function Search(table: seq<Medicine>, q: string): seq<Medicine> {
    if q == "" then table else Matching(table, "%" + q + "%")
  }

  /**
   * An empty search lists every row; a search without `LIKE` wildcards or
   * backslashes lists exactly the rows whose lower-cased name or description
   * contains it.
   */
  lemma SearchSpec(table: seq<Medicine>, q: string)
    ensures q == "" ==> Search(table, q) == table
    ensures q != "" && Literal(q) ==> forall m :: m in Search(table, q) <==>
      m in table && (Contains(Lower(m.name), q) || Contains(Lower(m.description), q))
  {
    if q != "" && Literal(q) {
      forall m | m in table
        ensures LikeMatch(Lower(m.name), "%" + q + "%") <==> Contains(Lower(m.name), q)
        ensures LikeMatch(Lower(m.description), "%" + q + "%") <==> Contains(Lower(m.description), q)
      {
        SubstringPattern(Lower(m.name), q);
        SubstringPattern(Lower(m.description), q);
      }
    }
  }

  /** The cache after clearMedCache: every `meds:` key gone, every other key kept. */
  function WithoutMedKeys(cache: map<string, seq<Medicine>>): map<string, seq<Medicine>> {
    map k | k in cache && !StartsWith(k, MedsPrefix) :: cache[k]
  }

  /** Clearing removes exactly the `meds:` keys, keeps the values of the others, and a second clear changes nothing. */
  lemma WithoutMedKeysSpec(cache: map<string, seq<Medicine>>)
    ensures forall k :: k in WithoutMedKeys(cache) <==> k in cache && !StartsWith(k, MedsPrefix)
    ensures forall k :: k in WithoutMedKeys(cache) ==> WithoutMedKeys(cache)[k] == cache[k]
    ensures WithoutMedKeys(WithoutMedKeys(cache)) == WithoutMedKeys(cache)
  {
  }

  /** Every listing key is one clearMedCache removes. */
  lemma ListingKeysAreCleared(cache: map<string, seq<Medicine>>, search: string)
    ensures MedsPrefix + Lower(search) !in WithoutMedKeys(cache)
  {
    assert (MedsPrefix + Lower(search))[..|MedsPrefix|] == MedsPrefix;
  }

  // ---------------------------------------------------------------------------
  // The service's table, cache and handlers
  // ---------------------------------------------------------------------------

  datatype WriteResponse = Written(row: Medicine) | Removed | Refused(status: int, error: string)

  class CatalogStore {
    var medicines: seq<Medicine>
    var nextId: nat
    var cache: map<string, seq<Medicine>>

    ghost predicate Valid()
      reads this
    {
      Ascending(medicines) && forall i :: 0 <= i < |medicines| ==> medicines[i].id < nextId
    }

    constructor (cache: map<string, seq<Medicine>>)
      ensures Valid()
      ensures medicines == [] && this.cache == cache
    {
      medicines := [];
      nextId := 1;
      this.cache := cache;
    }

    /** clearMedCache: scan the `meds:*` keys and delete each one. */
    method ClearMedCache()
      modifies this
      ensures cache == WithoutMedKeys(old(cache))
      ensures medicines == old(medicines) && nextId == old(nextId)
    {
      var keys := set k | k in cache && StartsWith(k, MedsPrefix);
      while keys != {}
        invariant keys <= old(cache).Keys
        invariant forall k :: k in keys ==> StartsWith(k, MedsPrefix)
        invariant cache == map k | k in old(cache) && (!StartsWith(k, MedsPrefix) || k in keys) :: old(cache)[k]
        invariant medicines == old(medicines) && nextId == old(nextId)
        decreases keys
      {
        var key :| key in keys;
        cache := map k | k in cache && k != key :: cache[k];
        keys := keys - {key};
      }
    }

    /**
     * GET /medicines. The key is `meds:` plus the lower-cased search text. A
     * cached listing is answered as it is; otherwise the query result is
     * stored under the key and answered.
     */
    method ListMedicines(search: string) returns (rows: seq<Medicine>)
      modifies this
      ensures medicines == old(medicines) && nextId == old(nextId)
      ensures var key := MedsPrefix + Lower(search);
        if key in old(cache) then rows == old(cache)[key] && cache == old(cache)
        else rows == Search(medicines, Lower(search)) && cache == old(cache)[key := rows]
    {
      var q := Lower(search);
      var key := MedsPrefix + q;
      if key in cache {
        return cache[key];
      }
      rows := Search(medicines, q);
      cache := cache[key := rows];
    }

    /** POST /medicines: admin only; a body the schema accepts becomes a new row with the next id. */
    method Create(authorization: string, verify: string -> Option<Claims>, body: MedBody) returns (resp: WriteResponse)
      requires Valid()
      modifies this
      ensures Valid()
      ensures match RequireAdmin(authorization, verify)
        case Denied(status, error) =>
          resp == Refused(status, error) && medicines == old(medicines) && nextId == old(nextId) && cache == old(cache)
        case Admitted(_) =>
          match MedSchema(body)
          case None =>
            resp == Refused(400, SchemaErrorMessage)
            && medicines == old(medicines) && nextId == old(nextId) && cache == old(cache)
          case Some(d) =>
            var row := Medicine(old(nextId), d.name, if d.description.Some? then d.description.value else "", d.price, d.stock);
            && resp == Written(row)
            && medicines == old(medicines) + [row]
            && nextId == old(nextId) + 1
            && cache == WithoutMedKeys(old(cache))
    {
      var gate := RequireAdmin(authorization, verify);
      if gate.Denied? {
        return Refused(gate.status, gate.error);
      }
      var parsed := MedSchema(body);
      if parsed.None? {
        return Refused(400, SchemaErrorMessage);
      }
      var d := parsed.value;
      var row := Medicine(nextId, d.name, if d.description.Some? then d.description.value else "", d.price, d.stock);
      medicines := medicines + [row];
      nextId := nextId + 1;
      ClearMedCache();
      resp := Written(row);
    }

    /**
     * PUT /medicines/:id: admin only. An empty patch is `no fields`; an id
     * with no row is 404 and leaves the cache alone; otherwise the supplied
     * fields of that row are replaced and the `meds:` keys cleared.
     */
    method Update(authorization: string, verify: string -> Option<Claims>, id: int, body: MedBody) returns (resp: WriteResponse)
      requires Valid()
      modifies this
      ensures Valid() && nextId == old(nextId)
      ensures match RequireAdmin(authorization, verify)
        case Denied(status, error) =>
          resp == Refused(status, error) && medicines == old(medicines) && cache == old(cache)
        case Admitted(_) =>
          match PatchSchema(body)
          case None =>
            resp == Refused(400, SchemaErrorMessage) && medicines == old(medicines) && cache == old(cache)
          case Some(p) =>
            if |Entries(p)| == 0 then
              resp == Refused(400, "no fields") && medicines == old(medicines) && cache == old(cache)
            else if !HasId(old(medicines), id) then
              resp == Refused(404, "not found") && medicines == old(medicines) && cache == old(cache)
            else
              && medicines == MergeRow(old(medicines), id, p)
              && cache == WithoutMedKeys(old(cache))
              && resp.Written? && resp.row.id == id && resp.row in medicines
              && exists i :: 0 <= i < |old(medicines)| && old(medicines)[i].id == id && resp.row == Merge(old(medicines)[i], p)
    {
      var gate := RequireAdmin(authorization, verify);
      if gate.Denied? {
        return Refused(gate.status, gate.error);
      }
      var parsed := PatchSchema(body);
      if parsed.None? {
        return Refused(400, SchemaErrorMessage);
      }
      var p := parsed.value;
      var built := BuildUpdate(Entries(p), id);
      if built.None? {
        return Refused(400, "no fields");
      }
      var st := built.value;
      forall m | m in medicines
        ensures ApplyClauses(m, st.clauses, st.values) == Merge(m, p) && (Targets(st, m) <==> m.id == id)
      {
        StatementMeansMerge(m, p, id, st);
      }
      var after := RunUpdate(medicines, st);
      assert after == MergeRow(medicines, id, p);
      if !HasId(medicines, id) {
        return Refused(404, "not found");
      }
      var i :| 0 <= i < |medicines| && medicines[i].id == id;
      medicines := after;
      ClearMedCache();
      resp := Written(after[i]);
    }

    /** DELETE /medicines/:id: admin only; 404 without touching the cache when no row has the id. */
    method Delete(authorization: string, verify: string -> Option<Claims>, id: int) returns (resp: WriteResponse)
      requires Valid()
      modifies this
      ensures Valid() && nextId == old(nextId)
      ensures match RequireAdmin(authorization, verify)
        case Denied(status, error) =>
          resp == Refused(status, error) && medicines == old(medicines) && cache == old(cache)
        case Admitted(_) =>
          if !HasId(old(medicines), id) then
            resp == Refused(404, "not found") && medicines == old(medicines) && cache == old(cache)
          else
            resp == Removed && medicines == RemoveId(old(medicines), id) && cache == WithoutMedKeys(old(cache))
    {
      var gate := RequireAdmin(authorization, verify);
      if gate.Denied? {
        return Refused(gate.status, gate.error);
      }
      if !HasId(medicines, id) {
        return Refused(404, "not found");
      }
      medicines := RemoveId(medicines, id);
      ClearMedCache();
      resp := Removed;
    }
  }

  /** After an update of an existing row, only that row differs, and it differs only in the supplied fields. */
  lemma MergeRowSpec(table: seq<Medicine>, id: int, p: MedPatch)
    requires Ascending(table)
    ensures var r := MergeRow(table, id, p);
      && (forall i :: 0 <= i < |table| && table[i].id != id ==> r[i] == table[i])
      && (forall i :: 0 <= i < |table| && table[i].id == id ==>
            && r[i].name == (if p.name.Some? then p.name.value else table[i].name)
            && r[i].description == (if p.description.Some? then p.description.value else table[i].description)
            && r[i].price == (if p.price.Some? then p.price.value else table[i].price)
            && r[i].stock == (if p.stock.Some? then p.stock.value else table[i].stock))
      && (forall i, j :: 0 <= i < |table| && 0 <= j < |table| && table[i].id == id && table[j].id == id ==> i == j)
  {
  }

  /** After a delete the id is gone and every other row remains. */
  lemma RemoveIdSpec(table: seq<Medicine>, id: int)
    ensures !HasId(RemoveId(table, id), id)
    ensures forall m :: m in table && m.id != id ==> m in RemoveId(table, id)
    ensures HasId(table, id) ==> |RemoveId(table, id)| < |table|
  {
    if HasId(table, id) {
      RemoveIdShrinks(table, id);
    }
  }

  lemma {:induction false} RemoveIdShrinks(table: seq<Medicine>, id: int)
    requires HasId(table, id)
    ensures |RemoveId(table, id)| < |table|
  {
    var n := |table|;
    var prefix := table[..n - 1];
    if table[n - 1].id != id {
      var i :| 0 <= i < n && table[i].id == id;
      assert prefix[i].id == id;
      RemoveIdShrinks(prefix, id);
    }
  }
}
