/** Every table whose texts survive printing has a complete description. */
module DescriptionWitness {
  import opened Text
  import opened Ddl
  import opened TableModel
  import opened ColumnPhases
  import opened SchemaDiff
  import opened LoadModel
  import opened CreateTable
  import opened DescribeTable
  import opened DesignerSession

  /** The elements of a finite set, each once, in some order. */
  ghost function Listing<T>(s: set<T>): seq<T> {
    if s == {} then [] else var x :| x in s; [x] + Listing(s - {x})
  }

  lemma {:induction false} ListingContent<T>(s: set<T>)
    ensures NoDup(Listing(s)) && forall x :: x in Listing(s) <==> x in s
    decreases |s|
  {
    if s != {} {
      var x := Listing(s)[0];
      ListingContent(s - {x});
      assert Listing(s) == [x] + Listing(s - {x});
    }
  }

  /** Stored texts carry no outer blanks, and key columns have printable names. */
  ghost predicate Printed(t: Table) {
    && Trim(t.comment) == t.comment
    && (forall n | n in t.cols :: Trim(t.cols[n].typ) == t.cols[n].typ && Trim(t.cols[n].def) == t.cols[n].def)
    && (t.pk.Some? ==> forall n | n in t.pk.value.cols :: Printable(n))
  }

  function TypeOf(k: Kind): KeyType {
    match k
    case UniqKind => UniqueKey
    case FkKind => ForeignKey
    case ChkKind => CheckKey
    case _ => OtherKey
  }

  /** A key entry: its definition text is its name, which the readers look up. */
  function Entry(t: Table, k: Key): DocKey
    requires k in t.objs
  {
    var d := t.objs[k];
    DocKey(k.name, TypeOf(k.kind), k.name, if d.CheckDef? then "" else Join(d.refs, ", "))
  }

  function ReadersOf(t: Table): Readers {
    Readers(
      (s: string) =>
        if Key(FkKind, s) in t.objs && t.objs[Key(FkKind, s)].ForeignDef? then
          var d := t.objs[Key(FkKind, s)]; FkRef(d.refTable, Join(d.refCols, ", "), d.onDelete)
        else FkRef("", "", ""),
      (s: string) => if Key(ChkKind, s) in t.objs && t.objs[Key(ChkKind, s)].CheckDef? then t.objs[Key(ChkKind, s)].text else "")
  }

  function ColumnEntries(t: Table, names: seq<string>): (cs: seq<DocCol>)
    requires forall i | 0 <= i < |names| :: names[i] in t.cols
  {
    seq(|names|, i requires 0 <= i < |names| => var s := t.cols[names[i]]; DocCol(names[i], s.typ, "", s.notNull, s.def))
  }

  function KeyEntries(t: Table, ks: seq<Key>): seq<DocKey>
    requires forall i | 0 <= i < |ks| :: ks[i] in t.objs
  {
    seq(|ks|, i requires 0 <= i < |ks| => Entry(t, ks[i]))
  }

  function IndexEntries(t: Table, ks: seq<Key>): seq<DocIdx>
    requires forall i | 0 <= i < |ks| :: ks[i] in t.objs && t.objs[ks[i]].IndexDef?
  {
    seq(|ks|, i requires 0 <= i < |ks| => var d := t.objs[ks[i]]; DocIdx(ks[i].name, d.unique, false, d.text))
  }

  ghost function PkEntries(t: Table): seq<DocKey> {
    if t.pk.None? then [] else [DocKey(t.pk.value.name, PrimaryKey, "", Join(Listing(t.pk.value.cols), ", "))]
  }

  ghost function KeysOf(t: Table): set<Key> { set k | k in t.objs && k.kind in {UniqKind, FkKind, ChkKind} }

  ghost function IndexesOf(t: Table): set<Key> { set k | k in t.objs && k.kind == IdxKind }

  ghost predicate ColumnPart(t: Table, cs: seq<DocCol>) {
    && ColumnsOnce(cs) && (forall c | c in cs :: c.name in t.cols && SpecOf(DocColText(c)) == t.cols[c.name] && Trim(DocColText(c).typ) != "")
    && (forall n | n in t.cols :: exists c | c in cs :: c.name == n)
  }

  ghost predicate KeyPart(t: Table, keys: seq<DocKey>) {
    && KeysOnce(keys) && (forall k | k in keys :: k.typ != PrimaryKey && DescribesKey(ReadersOf(t), k, t))
    && (forall k | k in t.objs && k.kind in {UniqKind, FkKind, ChkKind} :: HasKeyOf(keys, TypeOf(k.kind), k.name))
  }

  ghost predicate IndexPart(t: Table, indexes: seq<DocIdx>) {
    && (forall i, j | 0 <= i < j < |indexes| :: indexes[i].name != indexes[j].name)
    && (forall i | i in indexes :: !i.primary && Key(IdxKind, i.name) in t.objs && t.objs[Key(IdxKind, i.name)].IndexDef?
                     && i.cols == t.objs[Key(IdxKind, i.name)].text && i.unique == t.objs[Key(IdxKind, i.name)].unique)
    && (forall k | k in t.objs && k.kind == IdxKind :: HasIndexOf(indexes, k.name))
  }

  lemma {:induction false} ColumnEntry(e: Engine, t: Table, n: string)
    requires LegalTable(e, t) && Printed(t) && n in t.cols
    ensures var c := DocCol(n, t.cols[n].typ, "", t.cols[n].notNull, t.cols[n].def);
            SpecOf(DocColText(c)) == t.cols[n] && Trim(DocColText(c).typ) != ""
  {
  }

  lemma {:induction false} ColumnParts(e: Engine, t: Table)
    requires LegalTable(e, t) && Printed(t)
    ensures exists cs :: ColumnPart(t, cs)
  {
    var names := Listing(t.cols.Keys);
    ListingContent(t.cols.Keys);
    forall i | 0 <= i < |names| ensures names[i] in t.cols { assert names[i] in names; }
    var cs := ColumnEntries(t, names);
    forall c | c in cs ensures c.name in t.cols && SpecOf(DocColText(c)) == t.cols[c.name] && Trim(DocColText(c).typ) != "" {
      ColumnEntry(e, t, c.name);
    }
    forall n | n in t.cols ensures exists c | c in cs :: c.name == n {
      var i :| 0 <= i < |names| && names[i] == n;
      assert cs[i] in cs;
    }
    assert ColumnPart(t, cs);
  }

  lemma {:induction false} EntryDescribes(parse: string -> seq<string>, t: Table, k: Key)
    requires k in t.objs && k.kind in {UniqKind, FkKind, ChkKind} && AsWritten(parse, k, t.objs[k])
    ensures DescribesKey(ReadersOf(t), Entry(t, k), t) && Entry(t, k).typ != PrimaryKey
  {
    assert k == Key(k.kind, k.name);
  }

  lemma {:induction false} KeyParts(parse: string -> seq<string>, t: Table)
    requires TableAsWritten(parse, t)
    ensures exists keys :: KeyPart(t, keys)
  {
    var ks := Listing(KeysOf(t));
    ListingContent(KeysOf(t));
    forall i | 0 <= i < |ks| ensures ks[i] in KeysOf(t) { assert ks[i] in ks; }
    var keys := KeyEntries(t, ks);
    forall k | k in keys ensures k.typ != PrimaryKey && DescribesKey(ReadersOf(t), k, t) {
      var i :| 0 <= i < |keys| && keys[i] == k;
      EntryDescribes(parse, t, ks[i]);
    }
    forall i, j | 0 <= i < j < |keys| && keys[i].typ == keys[j].typ ensures keys[i].name != keys[j].name {
      SameEntry(t, ks[i], ks[j]);
    }
    forall k | k in t.objs && k.kind in {UniqKind, FkKind, ChkKind} ensures HasKeyOf(keys, TypeOf(k.kind), k.name) {
      assert k in KeysOf(t);
      var i :| 0 <= i < |ks| && ks[i] == k;
      assert keys[i] in keys;
    }
    assert KeyPart(t, keys);
  }

  lemma {:induction false} SameEntry(t: Table, a: Key, b: Key)
    requires a in t.objs && b in t.objs && a.kind in {UniqKind, FkKind, ChkKind} && b.kind in {UniqKind, FkKind, ChkKind} && a != b
    ensures Entry(t, a).typ != Entry(t, b).typ || Entry(t, a).name != Entry(t, b).name
  {
  }

  lemma {:induction false} IndexParts(parse: string -> seq<string>, t: Table)
    requires TableAsWritten(parse, t)
    ensures exists indexes :: IndexPart(t, indexes)
  {
    var ks := Listing(IndexesOf(t));
    ListingContent(IndexesOf(t));
    forall i | 0 <= i < |ks| ensures ks[i] in t.objs && ks[i].kind == IdxKind && ks[i] == Key(IdxKind, ks[i].name) && t.objs[ks[i]].IndexDef? {
      assert ks[i] in ks;
      assert AsWritten(parse, ks[i], t.objs[ks[i]]);
    }
    var indexes := IndexEntries(t, ks);
    forall k | k in t.objs && k.kind == IdxKind ensures HasIndexOf(indexes, k.name) {
      assert k in IndexesOf(t);
      var i :| 0 <= i < |ks| && ks[i] == k;
      assert indexes[i] in indexes;
    }
    assert IndexPart(t, indexes);
  }

  lemma {:induction false} PkParts(t: Table, keys: seq<DocKey>)
    requires Printed(t) && forall k | k in keys :: k.typ != PrimaryKey
    ensures forall k | k in PkEntries(t) + keys && k.typ == PrimaryKey ::
              t.pk.Some? && k.name == t.pk.value.name && Prints(k.cols, t.pk.value.cols)
    ensures t.pk.Some? <==> exists k :: k in PkEntries(t) + keys && k.typ == PrimaryKey
  {
    if t.pk.Some? {
      var order := Listing(t.pk.value.cols);
      ListingContent(t.pk.value.cols);
      assert (set n | n in order) == t.pk.value.cols;
      assert Prints(Join(order, ", "), t.pk.value.cols);
      assert PkEntries(t)[0] in PkEntries(t) + keys;
    }
  }

  lemma {:induction false} KeysWithPk(t: Table, keys: seq<DocKey>)
    requires KeysOnce(keys)
    ensures KeysOnce(PkEntries(t) + keys)
    ensures forall typ, n | HasKeyOf(keys, typ, n) :: HasKeyOf(PkEntries(t) + keys, typ, n)
  {
    var p := PkEntries(t);
    forall i, j | 0 <= i < j < |p + keys| && (p + keys)[i].typ == (p + keys)[j].typ && (p + keys)[i].typ != PrimaryKey
      && (p + keys)[i].typ in {UniqueKey, ForeignKey, CheckKey}
      ensures (p + keys)[i].name != (p + keys)[j].name
    {
      assert (p + keys)[i] == keys[i - |p|] && (p + keys)[j] == keys[j - |p|];
    }
  }

  lemma {:induction false} PartsDescribe(t: Table, cs: seq<DocCol>, keys: seq<DocKey>, indexes: seq<DocIdx>)
    requires Printed(t) && ColumnPart(t, cs) && KeyPart(t, keys) && IndexPart(t, indexes)
    ensures var doc := Doc(t.name, cs, PkEntries(t) + keys, indexes, t.comment);
            Describes(ReadersOf(t), doc, t) && DescribedOnce(doc) && ColumnPart(t, doc.columns)
  {
    var doc := Doc(t.name, cs, PkEntries(t) + keys, indexes, t.comment);
    PkParts(t, keys);
    KeysWithPk(t, keys);
    forall i | i in indexes ensures DescribesIndex(doc, i, t) {}
  }

  /** The table has a description, with readers that read it, in which nothing is described twice
      and every column has a type. */
  ghost predicate Describable(t: Table) {
    exists r, doc :: Describes(r, doc, t) && DescribedOnce(doc) && forall c | c in doc.columns :: Trim(DocColText(c).typ) != ""
  }

  /** Every table an engine can hold has one, if its texts are stored trimmed and its names can be
      written into a list. */
  lemma {:induction false} DescriptionExists(e: Engine, parse: string -> seq<string>, t: Table)
    requires LegalTable(e, t) && TableAsWritten(parse, t) && Printed(t)
    ensures Describable(t)
  {
    ColumnParts(e, t);
    KeyParts(parse, t);
    IndexParts(parse, t);
    var cs, keys, indexes :| ColumnPart(t, cs) && KeyPart(t, keys) && IndexPart(t, indexes);
    SomeDescription(t, cs, keys, indexes);
  }

  lemma {:induction false} SomeDescription(t: Table, cs: seq<DocCol>, keys: seq<DocKey>, indexes: seq<DocIdx>)
    requires Printed(t) && ColumnPart(t, cs) && KeyPart(t, keys) && IndexPart(t, indexes)
    ensures Describable(t)
  {
    PartsDescribe(t, cs, keys, indexes);
  }

  lemma {:induction false} CreatedIsPrinted(e: Engine, parse: string -> seq<string>, m: Model, t: Table)
    requires Shows(e, parse, m, t) && forall n | n in PkNames(m.cols) :: Printable(n)
    ensures Printed(t)
  {
    TrimIdem(m.comment);
    forall n | n in t.cols ensures Trim(t.cols[n].typ) == t.cols[n].typ && Trim(t.cols[n].def) == t.cols[n].def {
      assert HasCol(t.cols, n, t.cols[n]);
      var c :| c in m.cols && LiveName(c.cur.name) && c.cur.name == n && SpecOf(c.cur) == t.cols[n];
      TrimIdem(c.cur.typ);
      TrimIdem(c.cur.def);
    }
  }

  /** In particular every table that the designer creates from printable names. */
  lemma {:induction false} CreatedHasDescription(e: Engine, parse: string -> seq<string>, m: Model)
    requires e != SQLite && WellFormedEdit(e, parse, m) && IsFresh(m) && PrintableModel(parse, m)
    requires forall n | n in PkNames(m.cols) :: Printable(n)
    ensures var t := RunCreate(e, parse, Create(e, m)); t.Some? && Describable(t.value)
  {
    CreateBuildsShownTable(e, parse, m);
    var t := RunCreate(e, parse, Create(e, m)).value;
    CreatedIsWritten(e, parse, m, t);
    CreatedIsLegal(e, parse, m, t);
    CreatedIsPrinted(e, parse, m, t);
    DescriptionExists(e, parse, t);
  }
}
