/**
 * `Carts` and `Stores`: a map from id to record that is filled from the text
 * of a file, updated by id, exported in ascending id order and written back as
 * text. Both are `Collection`s; the `Kind` says which file the text belongs to.
 */
module Collections {
  import opened Wrappers
  import opened Text
  import opened RecordCodec

  /** Every record is filed under its own id, as `insert(rec.id, rec)` does. */
  ghost predicate KeyedById(m: map<int, Record>) {
    forall k :: k in m ==> m[k].id == k
  }

  predicate StrictlyAscending(rs: seq<Record>) {
    forall i, j :: 0 <= i < j < |rs| ==> rs[i].id < rs[j].id
  }

  /** `rs` lists exactly the records of `m`, each once, in strictly ascending id order. */
  ghost predicate IsSortedExport(rs: seq<Record>, m: map<int, Record>) {
    && StrictlyAscending(rs)
    && (forall i :: 0 <= i < |rs| ==> rs[i].id in m && m[rs[i].id] == rs[i])
    && (forall k :: k in m ==> exists i :: 0 <= i < |rs| && rs[i].id == k)
  }

  /** A non-empty set of ids has a member. */
  lemma HasMember(s: set<int>)
    requires s != {}
    ensures exists k :: k in s
  {
    if forall k :: k !in s {
      assert false;
    }
  }

  /** Puts `r` into an ascending sequence at the place its id belongs. */
  function InsertById(rs: seq<Record>, r: Record): (out: seq<Record>)
    requires StrictlyAscending(rs)
    requires forall i :: 0 <= i < |rs| ==> rs[i].id != r.id
    ensures |out| == |rs| + 1
    ensures StrictlyAscending(out)
    ensures forall x :: x in out <==> x == r || x in rs
  {
    if rs == [] || r.id < rs[0].id then [r] + rs
    else
      var tail := InsertById(rs[1..], r);
      assert forall j :: 0 <= j < |tail| ==> rs[0].id < tail[j].id by {
        forall j | 0 <= j < |tail|
          ensures rs[0].id < tail[j].id
        {
          assert tail[j] in tail;
          if tail[j] != r {
            var i :| 0 <= i < |rs[1..]| && rs[1..][i] == tail[j];
            assert rs[i + 1] == tail[j];
          }
        }
      }
      assert rs == [rs[0]] + rs[1..];
      [rs[0]] + tail
  }

  /** Adding one record with a new id to the exported map: insert it into the export. */
  lemma ExportInsert(rs: seq<Record>, d: map<int, Record>, r: Record)
    requires IsSortedExport(rs, d)
    requires r.id !in d
    ensures IsSortedExport(InsertById(rs, r), d[r.id := r])
  {
    var out := InsertById(rs, r);
    var d' := d[r.id := r];
    forall i | 0 <= i < |out|
      ensures out[i].id in d' && d'[out[i].id] == out[i]
    {
      assert out[i] in out;
      if out[i] != r {
        var j :| 0 <= j < |rs| && rs[j] == out[i];
      }
    }
    forall k | k in d'
      ensures exists i :: 0 <= i < |out| && out[i].id == k
    {
      if k == r.id {
        assert r in out;
        var i :| 0 <= i < |out| && out[i] == r;
      } else {
        var j :| 0 <= j < |rs| && rs[j].id == k;
        assert rs[j] in rs;
        assert rs[j] in out;
        var i :| 0 <= i < |out| && out[i] == rs[j];
      }
    }
  }

  /** Dropping the first record of an export gives the export of the map without its id. */
  lemma ExportTail(rs: seq<Record>, m: map<int, Record>)
    requires IsSortedExport(rs, m) && rs != []
    ensures IsSortedExport(rs[1..], m - {rs[0].id})
  {
    var tail := rs[1..];
    var m' := m - {rs[0].id};
    forall i, j | 0 <= i < j < |tail|
      ensures tail[i].id < tail[j].id
    {
      assert tail[i] == rs[i + 1] && tail[j] == rs[j + 1];
    }
    forall i | 0 <= i < |tail|
      ensures tail[i].id in m' && m'[tail[i].id] == tail[i]
    {
      assert tail[i] == rs[i + 1];
      assert rs[0].id < rs[i + 1].id;
    }
    forall k | k in m'
      ensures exists i :: 0 <= i < |tail| && tail[i].id == k
    {
      var i :| 0 <= i < |rs| && rs[i].id == k;
      assert tail[i - 1] == rs[i];
    }
  }

  lemma {:induction false} SortedExportExists(m: map<int, Record>)
    requires KeyedById(m)
    ensures exists rs :: IsSortedExport(rs, m)
    decreases m.Keys
  {
    if m.Keys == {} {
      assert IsSortedExport([], m);
    } else {
      HasMember(m.Keys);
      var k :| k in m.Keys;
      var d := m - {k};
      assert d.Keys < m.Keys;
      SortedExportExists(d);
      var rs :| IsSortedExport(rs, d);
      ExportInsert(rs, d, m[k]);
      assert d[m[k].id := m[k]] == m;
    }
  }

  /** The first record of an export has the least id of the map. */
  lemma ExportHead(rs: seq<Record>, m: map<int, Record>, k: int)
    requires IsSortedExport(rs, m) && k in m
    ensures rs != [] && rs[0].id <= k
  {
    var i :| 0 <= i < |rs| && rs[i].id == k;
    if i != 0 {
      assert rs[0].id < rs[i].id;
    }
  }

  /** There is only one way to list a map's records in strictly ascending id order. */
  lemma {:induction false} SortedExportUnique(a: seq<Record>, b: seq<Record>, m: map<int, Record>)
    requires IsSortedExport(a, m) && IsSortedExport(b, m)
    ensures a == b
    decreases |a|
  {
    if a == [] {
      ExportIsValues(a, m);
      ExportIsValues(b, m);
    } else {
      assert a[0].id in m;
      ExportHead(b, m, a[0].id);
      ExportHead(a, m, b[0].id);
      assert a[0] == m[a[0].id] == b[0];
      ExportTail(a, m);
      ExportTail(b, m);
      SortedExportUnique(a[1..], b[1..], m - {a[0].id});
      assert a == [a[0]] + a[1..];
      assert b == [b[0]] + b[1..];
    }
  }

  /** `into_vec` as a value: the records of `m` sorted by id. */
  ghost function Export(m: map<int, Record>): (rs: seq<Record>)
    requires KeyedById(m)
    ensures IsSortedExport(rs, m)
  {
    SortedExportExists(m);
    var rs :| IsSortedExport(rs, m);
    rs
  }

  /** The export holds every record of the map once and nothing else. */
  lemma {:induction false} ExportIsValues(rs: seq<Record>, m: map<int, Record>)
    requires IsSortedExport(rs, m)
    ensures |rs| == |m|
    ensures forall r :: r in rs <==> r.id in m && m[r.id] == r
    decreases |rs|
  {
    forall r: Record | r.id in m && m[r.id] == r
      ensures r in rs
    {
      var i :| 0 <= i < |rs| && rs[i].id == r.id;
    }
    if rs == [] {
      assert forall k :: k !in m;
      assert m == map[];
    } else {
      ExportTail(rs, m);
      ExportIsValues(rs[1..], m - {rs[0].id});
      assert (m - {rs[0].id}).Keys == m.Keys - {rs[0].id};
    }
  }

  /** A collection: the kind of file it is loaded from and saved to, and its records by id. */
  class Collection {
    const kind: Kind
    var items: map<int, Record>

    ghost predicate Valid()
      reads this
    {
      KeyedById(items)
    }

    /** `Carts::new` / `Stores::new`: an empty collection. */
    constructor (kind: Kind)
      ensures Valid() && this.kind == kind && items == map[]
    {
      this.kind := kind;
      items := map[];
    }

    /** `addCart` / `addItem`: file the record under its id, replacing any record already there. */
    method Add(r: Record)
      requires Valid()
      modifies this
      ensures Valid()
      ensures items == old(items)[r.id := r]
      ensures r.id in items && items[r.id] == r
      ensures forall k :: k in old(items) && k != r.id ==> k in items && items[k] == old(items)[k]
      ensures |items| <= |old(items)| + 1
    {
      items := items[r.id := r];
    }

    /** `clone`: a new collection with the same records. */
    method Clone() returns (c: Collection)
      ensures fresh(c) && c.kind == kind && c.items == items
    {
      c := new Collection(kind);
      c.items := items;
    }

    /**
     * `into_vec`: the records, drained in whatever order the map yields them
     * and sorted by id. Each drained record is inserted at its place by id.
     */
    method IntoVec() returns (rs: seq<Record>)
      requires Valid()
      ensures IsSortedExport(rs, items)
      ensures rs == Export(items)
    {
      rs := [];
      var rest := items.Keys;
      while rest != {}
        invariant rest <= items.Keys
        invariant IsSortedExport(rs, items - rest)
        decreases rest
      {
        HasMember(rest);
        var k :| k in rest;
        ExportInsert(rs, items - rest, items[k]);
        rs := InsertById(rs, items[k]);
        assert (items - rest)[k := items[k]] == items - (rest - {k});
        rest := rest - {k};
      }
      assert items - {} == items;
      SortedExportUnique(rs, Export(items), items);
    }

    /** `next_Id`: sort the ids and take the last one plus one; 1 when there are none. */
    method NextId() returns (next: int)
      requires Valid()
      ensures items == map[] ==> next == 1
      ensures items != map[] ==> next - 1 in items && forall k :: k in items ==> k < next
    {
      var rs := IntoVec();
      if |rs| == 0 {
        next := 1;
        EmptyExport(rs, items);
      } else {
        next := rs[|rs| - 1].id + 1;
        LastIsGreatest(rs, items);
      }
    }
  }

  /** Only the empty map exports to the empty list. */
  lemma EmptyExport(rs: seq<Record>, m: map<int, Record>)
    requires IsSortedExport(rs, m) && rs == []
    ensures m == map[]
  {
    assert forall k :: k !in m;
  }

  /** The last record of an export carries the greatest id of the map. */
  lemma LastIsGreatest(rs: seq<Record>, m: map<int, Record>)
    requires IsSortedExport(rs, m) && rs != []
    ensures rs[|rs| - 1].id in m && m != map[]
    ensures forall k :: k in m ==> k <= rs[|rs| - 1].id
  {
    forall k | k in m
      ensures k <= rs[|rs| - 1].id
    {
      var i :| 0 <= i < |rs| && rs[i].id == k;
    }
  }

  // ---------------------------------------------------------------------------
  // Loading: `parseCarts` / `parseStores`
  // ---------------------------------------------------------------------------

  /** Every record is i64-valued with a non-empty, comma-free name. */
  ghost predicate AllWellFormed(m: map<int, Record>) {
    forall k :: k in m ==> WellFormed(m[k])
  }

  /** What one line of a file contributes: the record of a non-empty line that parses, nothing otherwise. */
  function LineRecord(kind: Kind, line: string): (o: Option<Record>)
    ensures o.Some? ==> WellFormed(o.value)
  {
    if line == [] then None
    else
      match ParseRecord(kind, line)
      case Success(r) => Some(r)
      case Failure(_) => None
  }

  /** What each line contributes, in order. */
  function Outcomes(kind: Kind, lines: seq<string>): (os: seq<Option<Record>>)
    ensures |os| == |lines|
    ensures forall i :: 0 <= i < |os| && os[i].Some? ==> WellFormed(os[i].value)
  {
    if lines == [] then [] else [LineRecord(kind, lines[0])] + Outcomes(kind, lines[1..])
  }

  /** The `i`-th outcome is what the `i`-th line contributes. */
  lemma {:induction false} OutcomeAt(kind: Kind, lines: seq<string>, i: int)
    requires 0 <= i < |lines|
    ensures Outcomes(kind, lines)[i] == LineRecord(kind, lines[i])
  {
    if i > 0 {
      OutcomeAt(kind, lines[1..], i - 1);
    }
  }

  /** One turn of the loading loop: a record is filed under its id, replacing any record there. */
  function FileOne(m: map<int, Record>, o: Option<Record>): map<int, Record> {
    match o
    case Some(r) => m[r.id := r]
    case None => m
  }

  /** The outcomes filed one after the other into `m`. */
  function FileAll(m: map<int, Record>, os: seq<Option<Record>>): (r: map<int, Record>)
    ensures KeyedById(m) ==> KeyedById(r)
    ensures AllWellFormed(m) && (forall i :: 0 <= i < |os| && os[i].Some? ==> WellFormed(os[i].value))
      ==> AllWellFormed(r)
    decreases os
  {
    if os == [] then m else FileAll(FileOne(m, os[0]), os[1..])
  }

  /** Filing the outcomes from position `i` on starts with the `i`-th one. */
  lemma FileAllAt(m: map<int, Record>, os: seq<Option<Record>>, i: int)
    requires 0 <= i < |os|
    ensures FileAll(m, os[i..]) == FileAll(FileOne(m, os[i]), os[i + 1..])
  {
    assert os[i..][1..] == os[i + 1..];
  }

  /** One line loaded into `m`. */
  function LoadStep(kind: Kind, m: map<int, Record>, line: string): map<int, Record> {
    FileOne(m, LineRecord(kind, line))
  }

  /** The lines loaded one after the other into `m`. */
  function LoadFrom(kind: Kind, m: map<int, Record>, lines: seq<string>): (r: map<int, Record>)
    ensures KeyedById(m) ==> KeyedById(r)
    ensures AllWellFormed(m) ==> AllWellFormed(r)
  {
    FileAll(m, Outcomes(kind, lines))
  }

  /** Loading a first line and then the rest. */
  lemma LoadFromFirst(kind: Kind, m: map<int, Record>, line: string, rest: seq<string>)
    ensures LoadFrom(kind, m, [line] + rest) == LoadFrom(kind, LoadStep(kind, m, line), rest)
  {
    assert ([line] + rest)[1..] == rest;
  }

  /** The map a whole file's text loads into. */
  function LoadText(kind: Kind, text: string): map<int, Record> {
    LoadFrom(kind, map[], Split(text, '\n'))
  }

  /**
   * `parseCarts` / `parseStores`: split the text into lines and add every
   * non-empty line that parses; lines that do not parse are skipped and
   * loading goes on.
   */
  method Load(kind: Kind, text: string) returns (c: Collection)
    ensures fresh(c) && c.Valid() && c.kind == kind
    ensures c.items == LoadText(kind, text)
    ensures AllWellFormed(c.items)
  {
    c := new Collection(kind);
    var lines := Split(text, '\n');
    ghost var os := Outcomes(kind, lines);
    assert os[0..] == os;
    for i := 0 to |lines|
      invariant c.Valid() && AllWellFormed(c.items) && c.kind == kind
      invariant FileAll(c.items, os[i..]) == LoadText(kind, text)
    {
      OutcomeAt(kind, lines, i);
      FileAllAt(c.items, os, i);
      LoadLine(c, lines[i]);
    }
    assert os[|lines|..] == [];
  }

  /** One turn of the loading loop: an empty line is skipped, a line that parses is added, any other line is reported and dropped. */
  method LoadLine(c: Collection, line: string)
    requires c.Valid() && AllWellFormed(c.items)
    modifies c
    ensures c.Valid() && AllWellFormed(c.items)
    ensures c.items == LoadStep(c.kind, old(c.items), line)
  {
    if line != [] {
      var parsed := ParseRecord(c.kind, line);
      if parsed.Success? {
        c.Add(parsed.value);
      }
    }
  }

  /** `line` is a non-empty line that parses to a record with id `k`. */
  predicate ParsesWithId(kind: Kind, line: string, k: int) {
    line != [] && ParseRecord(kind, line).Success? && ParseRecord(kind, line).value.id == k
  }

  /** An outcome that files a record under `k`. */
  predicate HasId(o: Option<Record>, k: int) {
    o.Some? && o.value.id == k
  }

  /** The index of the last outcome that files a record under `k`, if any. */
  function LastWithId(os: seq<Option<Record>>, k: int): (r: Option<nat>)
    ensures r.Some? ==> r.value < |os| && HasId(os[r.value], k)
    ensures r.Some? ==> forall j :: r.value < j < |os| ==> !HasId(os[j], k)
    ensures r.None? ==> forall j :: 0 <= j < |os| ==> !HasId(os[j], k)
  {
    if os == [] then None
    else
      match LastWithId(os[1..], k)
      case Some(j) => Some(j + 1)
      case None => if HasId(os[0], k) then Some(0) else None
  }

  /** Filing keeps, for each id, the record of the last outcome with that id. */
  lemma {:induction false} FileAllLastWins(m: map<int, Record>, os: seq<Option<Record>>, k: int)
    ensures var r := FileAll(m, os);
      match LastWithId(os, k)
      case Some(i) => k in r && r[k] == os[i].value
      case None => (k in r <==> k in m) && (k in m ==> r[k] == m[k])
    decreases os
  {
    if os != [] {
      FileAllLastWins(FileOne(m, os[0]), os[1..], k);
    }
  }

  /**
   * Loading never aborts: an id is loaded exactly when some non-empty line
   * parses with it, and it holds the record of the last such line.
   */
  lemma LoadedIffParsed(kind: Kind, text: string, k: int)
    ensures var lines := Split(text, '\n');
      k in LoadText(kind, text) <==> exists i :: 0 <= i < |lines| && ParsesWithId(kind, lines[i], k)
    ensures var lines := Split(text, '\n');
      k in LoadText(kind, text) ==>
        exists i :: 0 <= i < |lines| && ParsesWithId(kind, lines[i], k)
          && LoadText(kind, text)[k] == ParseRecord(kind, lines[i]).value
          && forall j :: i < j < |lines| ==> !ParsesWithId(kind, lines[j], k)
  {
    LinesLastWins(kind, Split(text, '\n'), k);
  }

  /** Loading lines keeps, for each id, the record of the last line that parses with it, and no other id. */
  lemma LinesLastWins(kind: Kind, lines: seq<string>, k: int)
    ensures k in LoadFrom(kind, map[], lines) <==> exists i :: 0 <= i < |lines| && ParsesWithId(kind, lines[i], k)
    ensures k in LoadFrom(kind, map[], lines) ==>
        exists i :: 0 <= i < |lines| && ParsesWithId(kind, lines[i], k)
          && LoadFrom(kind, map[], lines)[k] == ParseRecord(kind, lines[i]).value
          && forall j :: i < j < |lines| ==> !ParsesWithId(kind, lines[j], k)
  {
    var os := Outcomes(kind, lines);
    var loaded := LoadFrom(kind, map[], lines);
    FileAllLastWins(map[], os, k);
    match LastWithId(os, k)
    case Some(i) =>
      OutcomeAt(kind, lines, i);
      OutcomeParses(kind, lines[i], k);
      assert ParsesWithId(kind, lines[i], k) && loaded[k] == ParseRecord(kind, lines[i]).value;
      forall j | i < j < |lines|
        ensures !ParsesWithId(kind, lines[j], k)
      {
        OutcomeAt(kind, lines, j);
        OutcomeParses(kind, lines[j], k);
      }
    case None =>
      assert k !in loaded;
      forall j | 0 <= j < |lines|
        ensures !ParsesWithId(kind, lines[j], k)
      {
        OutcomeAt(kind, lines, j);
        OutcomeParses(kind, lines[j], k);
      }
  }

  /** A line's outcome files a record under `k` exactly when the line parses with id `k`, and that record is the parsed one. */
  lemma OutcomeParses(kind: Kind, line: string, k: int)
    ensures HasId(LineRecord(kind, line), k) <==> ParsesWithId(kind, line, k)
    ensures HasId(LineRecord(kind, line), k) ==> LineRecord(kind, line).value == ParseRecord(kind, line).value
  {
  }

  // ---------------------------------------------------------------------------
  // Saving: the text `saveCart` / `saveItem` write
  // ---------------------------------------------------------------------------

  /** The records that are written: those whose quantity is not exactly 0, in their order. */
  function Kept(rs: seq<Record>): (ks: seq<Record>)
    ensures forall r :: r in ks <==> r in rs && r.quantity != 0
  {
    if rs == [] then []
    else
      assert rs == [rs[0]] + rs[1..];
      if rs[0].quantity == 0 then Kept(rs[1..]) else [rs[0]] + Kept(rs[1..])
  }

  /** Dropping records keeps the order by id. */
  lemma {:induction false} KeptAscending(rs: seq<Record>)
    requires StrictlyAscending(rs)
    ensures StrictlyAscending(Kept(rs))
  {
    if rs != [] {
      var tail := Kept(rs[1..]);
      KeptAscending(rs[1..]);
      forall j | 0 <= j < |tail|
        ensures rs[0].id < tail[j].id
      {
        assert tail[j] in rs[1..];
        var i :| 0 <= i < |rs[1..]| && rs[1..][i] == tail[j];
        assert rs[i + 1] == tail[j];
      }
    }
  }

  /** One formatted line per record, each with its line break. */
  function RecordLines(rs: seq<Record>): string {
    if rs == [] then [] else FormatLine(rs[0]) + RecordLines(rs[1..])
  }

  /** The whole text of a saved file: the header, then one line per record with a non-zero quantity, by id. */
  ghost function SaveText(kind: Kind, m: map<int, Record>): string
    requires KeyedById(m)
  {
    Header(kind) + RecordLines(Kept(Export(m)))
  }

  /**
   * The body of `saveCart` / `saveItem`: write the header, then go through
   * the records by id, skipping those whose quantity is 0.
   */
  method Save(c: Collection) returns (text: string)
    requires c.Valid()
    ensures text == SaveText(c.kind, c.items)
  {
    var rs := c.IntoVec();
    text := WriteRecords(c.kind, rs);
  }

  /** The writing loop of `saveCart` / `saveItem`: the header, then a line for each record whose quantity is not 0. */
  method WriteRecords(kind: Kind, rs: seq<Record>) returns (text: string)
    ensures text == Header(kind) + RecordLines(Kept(rs))
  {
    text := Header(kind);
    for i := 0 to |rs|
      invariant text + RecordLines(Kept(rs[i..])) == Header(kind) + RecordLines(Kept(rs))
    {
      ghost var later := RecordLines(Kept(rs[i + 1..]));
      SaveStep(rs[i..], rs[i + 1..]);
      if rs[i].quantity == 0 {
        continue;
      }
      AppendAssoc(text, FormatLine(rs[i]), later);
      text := text + FormatLine(rs[i]);
    }
    assert rs[|rs|..] == [];
    assert text + [] == text;
  }

  /** What the first record of a non-empty list adds to the written lines. */
  lemma SaveStep(rs: seq<Record>, tail: seq<Record>)
    requires rs != [] && tail == rs[1..]
    ensures RecordLines(Kept(rs))
         == (if rs[0].quantity == 0 then [] else FormatLine(rs[0])) + RecordLines(Kept(tail))
  {
    if rs[0].quantity != 0 {
      assert ([rs[0]] + Kept(tail))[1..] == Kept(tail);
    } else {
      assert [] + RecordLines(Kept(tail)) == RecordLines(Kept(tail));
    }
  }

  /** Regrouping three strings, for the writing loop's invariant. */
  lemma AppendAssoc(a: string, b: string, c: string)
    ensures a + b + c == a + (b + c)
  {
  }

  /** The records that stay after saving and loading again: all but those with quantity 0. */
  function NonZero(m: map<int, Record>): map<int, Record> {
    map k | k in m && m[k].quantity != 0 :: m[k]
  }

  /** A record that survives being written as a line of a file: well-formed and without a line break in its name. */
  predicate Storable(r: Record) {
    WellFormed(r) && '\n' !in r.name
  }

  /** The line texts of the records, without their line breaks. */
  function LineTexts(rs: seq<Record>): seq<string> {
    if rs == [] then [] else [FormatFields(rs[0])] + LineTexts(rs[1..])
  }

  lemma FormatFieldsOneLine(r: Record)
    requires '\n' !in r.name
    ensures '\n' !in FormatFields(r)
  {
    FormatIntHasNoSeparator(r.id);
    FormatIntHasNoSeparator(r.quantity);
    FormatIntHasNoSeparator(r.value);
  }

  /** Splitting the record lines on line breaks gives each line, then the empty piece after the last break. */
  lemma {:induction false} SplitRecordLines(rs: seq<Record>)
    requires forall i :: 0 <= i < |rs| ==> '\n' !in rs[i].name
    ensures Split(RecordLines(rs), '\n') == LineTexts(rs) + [[]]
  {
    if rs != [] {
      FormatFieldsOneLine(rs[0]);
      SplitRecordLines(rs[1..]);
      SplitFirst(FormatFields(rs[0]), '\n', RecordLines(rs[1..]));
    }
  }

  /** The saved text, line by line: the column names, one line per kept record, and nothing after the last break. */
  lemma SaveLayout(kind: Kind, m: map<int, Record>)
    requires KeyedById(m)
    requires forall k :: k in m ==> '\n' !in m[k].name
    ensures Split(SaveText(kind, m), '\n') == [ColumnNames(kind)] + (LineTexts(Kept(Export(m))) + [[]])
  {
    var ks := Kept(Export(m));
    forall i | 0 <= i < |ks|
      ensures '\n' !in ks[i].name
    {
      assert ks[i] in Export(m);
    }
    SplitRecordLines(ks);
    assert '\n' !in ColumnNames(kind);
    SplitFirst(ColumnNames(kind), '\n', RecordLines(ks));
  }

  /** The map the records give when added in order. */
  ghost function ToMap(rs: seq<Record>): map<int, Record> {
    if rs == [] then map[] else map[rs[0].id := rs[0]] + ToMap(rs[1..])
  }

  /** Loading well-formed record lines adds exactly those records; the empty piece at the end changes nothing. */
  lemma {:induction false} LoadRecordLines(kind: Kind, m0: map<int, Record>, rs: seq<Record>)
    requires forall i :: 0 <= i < |rs| ==> WellFormed(rs[i])
    ensures LoadFrom(kind, m0, LineTexts(rs) + [[]]) == m0 + ToMap(rs)
    decreases rs
  {
    if rs == [] {
      LoadFromFirst(kind, m0, [], []);
      UnionEmpty(m0);
    } else {
      var r := rs[0];
      var rest := LineTexts(rs[1..]) + [[]];
      ConsThenAppend(FormatFields(r), LineTexts(rs[1..]), []);
      ParseFormat(kind, r);
      assert LoadStep(kind, m0, FormatFields(r)) == m0[r.id := r];
      LoadFromFirst(kind, m0, FormatFields(r), rest);
      LoadRecordLines(kind, m0[r.id := r], rs[1..]);
      UpdateThenUnion(m0, r, ToMap(rs[1..]));
    }
  }

  /** Regrouping a list of lines, for taking the first saved line off. */
  lemma ConsThenAppend(a: string, xs: seq<string>, b: string)
    ensures [a] + xs + [b] == [a] + (xs + [b])
  {
  }

  /** Adding no records changes nothing, for the last step of loading saved lines. */
  lemma UnionEmpty(m: map<int, Record>)
    ensures m + map[] == m
  {
  }

  /** Filing one record and then the rest is adding the rest with that record in front, for loading saved lines. */
  lemma UpdateThenUnion(m0: map<int, Record>, r: Record, t: map<int, Record>)
    ensures m0[r.id := r] + t == m0 + (map[r.id := r] + t)
  {
  }

  /** Adding the records of an export in order rebuilds the exported map. */
  lemma {:induction false} ToMapOfExport(rs: seq<Record>, m: map<int, Record>)
    requires IsSortedExport(rs, m)
    ensures ToMap(rs) == m
    decreases |rs|
  {
    if rs == [] {
      assert forall k :: k !in m;
      assert m == map[];
    } else {
      ExportTail(rs, m);
      ToMapOfExport(rs[1..], m - {rs[0].id});
      assert map[rs[0].id := rs[0]] + (m - {rs[0].id}) == m;
    }
  }

  /** The kept part of an export is the export of the records with a non-zero quantity. */
  lemma KeptExport(rs: seq<Record>, m: map<int, Record>)
    requires IsSortedExport(rs, m)
    ensures IsSortedExport(Kept(rs), NonZero(m))
  {
    var ks := Kept(rs);
    KeptAscending(rs);
    forall i | 0 <= i < |ks|
      ensures ks[i].id in NonZero(m) && NonZero(m)[ks[i].id] == ks[i]
    {
      assert ks[i] in rs;
    }
    forall k | k in NonZero(m)
      ensures exists i :: 0 <= i < |ks| && ks[i].id == k
    {
      var j :| 0 <= j < |rs| && rs[j].id == k;
      assert rs[j] in ks;
    }
  }

  /**
   * Saving and loading again gives back the collection without its records of
   * quantity 0, provided every record can be written as a line: the header does
   * not parse, and every other line parses to the record it was written from.
   */
  lemma ReloadAfterSave(kind: Kind, m: map<int, Record>)
    requires KeyedById(m)
    requires forall k :: k in m ==> Storable(m[k])
    ensures LoadText(kind, SaveText(kind, m)) == NonZero(m)
  {
    var rs := Export(m);
    var ks := Kept(rs);
    SaveLayout(kind, m);
    forall i | 0 <= i < |ks|
      ensures WellFormed(ks[i])
    {
      assert ks[i] in rs;
      var j :| 0 <= j < |rs| && rs[j] == ks[i];
    }
    HeaderSkipped(kind);
    LoadSavedLines(kind, ColumnNames(kind), ks);
    KeptExport(rs, m);
    ToMapOfExport(ks, NonZero(m));
  }

  /** The header line adds nothing to a collection. */
  lemma HeaderSkipped(kind: Kind)
    ensures LineRecord(kind, ColumnNames(kind)) == None
  {
    HeaderRejected(kind, kind);
  }

  /** The lines of a saved file load into the map of its records when the first line contributes nothing. */
  lemma LoadSavedLines(kind: Kind, header: string, ks: seq<Record>)
    requires LineRecord(kind, header) == None
    requires forall i :: 0 <= i < |ks| ==> WellFormed(ks[i])
    ensures LoadFrom(kind, map[], [header] + (LineTexts(ks) + [[]])) == ToMap(ks)
  {
    LoadFromFirst(kind, map[], header, LineTexts(ks) + [[]]);
    LoadRecordLines(kind, map[], ks);
    EmptyUnion(ToMap(ks));
  }

  /** Records added to an empty map are those records, for loading after the header. */
  lemma EmptyUnion(t: map<int, Record>)
    ensures map[] + t == t
  {
  }

  /** Saving twice, with a load in between, writes the same text. */
  lemma SaveIdempotent(kind: Kind, m: map<int, Record>)
    requires KeyedById(m)
    requires forall k :: k in m ==> Storable(m[k])
    ensures SaveText(kind, LoadText(kind, SaveText(kind, m))) == SaveText(kind, m)
  {
    ReloadAfterSave(kind, m);
    KeptExport(Export(m), m);
    SortedExportUnique(Export(NonZero(m)), Kept(Export(m)), NonZero(m));
    KeptTwice(Export(m));
  }

  /** A line without a line break yields only a record that can be saved and read back. */
  lemma LineStorable(kind: Kind, line: string)
    requires '\n' !in line
    ensures LineRecord(kind, line).Some? ==> Storable(LineRecord(kind, line).value)
  {
    if line != [] && ParseRecord(kind, line).Success? {
      ParseRecordAccepts(kind, line);
      SplitPiecesWithout(line, ',', '\n');
    }
  }

  /** Lines without line breaks yield only records that can be saved and read back. */
  lemma OutcomesStorable(kind: Kind, lines: seq<string>)
    requires forall i :: 0 <= i < |lines| ==> '\n' !in lines[i]
    ensures forall i :: 0 <= i < |lines| && Outcomes(kind, lines)[i].Some? ==> Storable(Outcomes(kind, lines)[i].value)
  {
    forall i | 0 <= i < |lines|
      ensures Outcomes(kind, lines)[i].Some? ==> Storable(Outcomes(kind, lines)[i].value)
    {
      OutcomeAt(kind, lines, i);
      LineStorable(kind, lines[i]);
    }
  }

  /** Filing storable records into a map of storable records keeps it so. */
  lemma {:induction false} FileAllStorable(m: map<int, Record>, os: seq<Option<Record>>)
    requires forall k :: k in m ==> Storable(m[k])
    requires forall i :: 0 <= i < |os| && os[i].Some? ==> Storable(os[i].value)
    ensures var r := FileAll(m, os);
      forall k :: k in r ==> Storable(r[k])
    decreases os
  {
    if os != [] {
      var next := FileOne(m, os[0]);
      assert forall k :: k in next ==> Storable(next[k]);
      assert forall i :: 0 <= i < |os[1..]| ==> os[1..][i] == os[i + 1];
      FileAllStorable(next, os[1..]);
      assert FileAll(m, os) == FileAll(next, os[1..]);
    }
  }

  /**
   * Every loaded record can be saved and read back: its name is a piece of a
   * line, so it holds neither a comma nor a line break.
   */
  lemma LoadedStorable(kind: Kind, text: string)
    ensures forall k :: k in LoadText(kind, text) ==> Storable(LoadText(kind, text)[k])
  {
    var lines := Split(text, '\n');
    SplitPieces(text, '\n');
    OutcomesStorable(kind, lines);
    var os := Outcomes(kind, lines);
    var empty: map<int, Record> := map[];
    FileAllStorable(empty, os);
    assert LoadText(kind, text) == FileAll(empty, os);
  }

  /** Saving what was loaded and loading it again gives the loaded records with a non-zero quantity. */
  lemma ReloadLoaded(kind: Kind, text: string)
    ensures KeyedById(LoadText(kind, text))
    ensures LoadText(kind, SaveText(kind, LoadText(kind, text))) == NonZero(LoadText(kind, text))
  {
    LoadedStorable(kind, text);
    ReloadAfterSave(kind, LoadText(kind, text));
  }

  /** Dropping zero-quantity records a second time drops nothing more. */
  lemma {:induction false} KeptTwice(rs: seq<Record>)
    ensures Kept(Kept(rs)) == Kept(rs)
  {
    if rs != [] {
      KeptTwice(rs[1..]);
    }
  }
}
