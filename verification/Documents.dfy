/** Configurations, templates and variables as the code holds them: mappings nested in
    mappings, every one of them mutable, and shared by reference unless it is copied. */
module Documents {
  import opened Outcomes

  /** What a document says, as a value. */
  datatype Tree = Leaf(text: string) | Node(items: map<string, Tree>)

  datatype Item = Text(text: string) | Nested(doc: Document)

  class Document {
    var items: map<string, Item>
    ghost var Repr: set<Document>

    /** `k` holds a mapping of its own. */
    predicate Holds(k: string)
      reads this
    {
      k in items && items[k].Nested?
    }

    /** A tree of mappings, none of which occurs in it twice. */
    ghost predicate Valid()
      reads this, Repr
      ensures Valid() ==> this in Repr
      decreases Repr
    {
      && this in Repr
      && (forall k :: Holds(k) ==>
            var c := items[k].doc; c in Repr && c.Repr <= Repr && this !in c.Repr && c.Valid())
      && (forall j, k :: Holds(j) && Holds(k) && j != k ==> items[j].doc.Repr !! items[k].doc.Repr)
    }

    function Value(): (t: Tree)
      requires Valid()
      reads this, Repr
      ensures t.Node? && t.items.Keys == items.Keys
      decreases Repr
    {
      Node(map k | k in items :: if Holds(k) then items[k].doc.Value() else Leaf(items[k].text))
    }

    constructor ()
      ensures Valid() && Repr == {this} && items == map[]
    {
      items := map[];
      Repr := {this};
    }

    /** d[k] = text */
    method PutText(k: string, text: string)
      requires Valid()
      modifies this
      ensures Valid() && Repr == old(Repr)
      ensures Value() == Node(old(Value()).items[k := Leaf(text)])
    {
      items := items[k := Text(text)];
    }

    /** d[k] = doc */
    method PutDocument(k: string, doc: Document)
      requires Valid() && doc.Valid() && doc.Repr !! Repr
      modifies this
      ensures Valid() && Repr == old(Repr) + doc.Repr
      ensures Value() == Node(old(Value()).items[k := doc.Value()])
    {
      items := items[k := Nested(doc)];
      Repr := Repr + doc.Repr;
    }

    /** d[k][key] = text */
    method PutTextIn(k: string, key: string, text: string)
      requires Valid() && Holds(k)
      modifies items[k].doc
      ensures Valid() && Repr == old(Repr)
      ensures Value() == Node(old(Value()).items[k := Node(old(items[k].doc.Value()).items[key := Leaf(text)])])
    {
      items[k].doc.PutText(key, text);
    }

    lemma Within(k: string)
      requires Valid() && k in items
      ensures Holds(k) ==> items[k].doc.Valid() && items[k].doc.Repr < Repr
      ensures Value().items[k] == if Holds(k) then items[k].doc.Value() else Leaf(items[k].text)
    {
    }

    lemma NothingWithin()
      requires Valid() && items == map[]
      ensures Value().items == map[]
    {
    }

    /** A copy of what is under `k`, put under `k` of the copy. */
    method CopyItem(k: string, copy: Document)
      requires Valid() && k in items && copy.Valid() && copy !in Repr
      modifies copy
      ensures copy.Valid() && copy.Repr >= old(copy.Repr) && fresh(copy.Repr - old(copy.Repr))
      ensures copy.Value() == Node(old(copy.Value()).items[k := Value().items[k]])
      decreases Repr, 0
    {
      hide Valid, Value;
      Within(k);
      if items[k].Nested? {
        var c := items[k].doc.DeepCopy();
        copy.PutDocument(k, c);
      } else {
        copy.PutText(k, items[k].text);
      }
    }

    /** copy.deepcopy */
    method DeepCopy() returns (d: Document)
      requires Valid()
      ensures d.Valid() && fresh(d.Repr) && d.Value() == Value()
      decreases Repr, 1
    {
      hide Valid, Value;
      d := new Document();
      d.NothingWithin();
      ghost var whole := Value().items;
      var rest := items.Keys;
      while rest != {}
        invariant rest <= items.Keys
        invariant d.Valid() && fresh(d.Repr)
        invariant d.Value().items == map k | k in items && k !in rest :: whole[k]
        decreases rest
      {
        var k :| k in rest;
        CopyItem(k, d);
        rest := rest - {k};
      }
    }

    static method BuildItem(k: string, tree: Tree, d: Document)
      requires d.Valid()
      modifies d
      ensures d.Valid() && d.Repr >= old(d.Repr) && fresh(d.Repr - old(d.Repr))
      ensures d.Value() == Node(old(d.Value()).items[k := tree])
      decreases tree, 1
    {
      hide Document.Valid, Document.Value;
      if tree.Node? {
        var c := Build(tree);
        d.PutDocument(k, c);
      } else {
        d.PutText(k, tree.text);
      }
    }

    /** A new document that says what the tree says. */
    static method Build(tree: Tree) returns (d: Document)
      requires tree.Node?
      ensures d.Valid() && fresh(d.Repr) && d.Value() == tree
      decreases tree, 0
    {
      hide Document.Valid, Document.Value;
      d := new Document();
      d.NothingWithin();
      var rest := tree.items.Keys;
      while rest != {}
        invariant rest <= tree.items.Keys
        invariant d.Valid() && fresh(d.Repr)
        invariant d.Value().items == map k | k in tree.items && k !in rest :: tree.items[k]
        decreases rest
      {
        var k :| k in rest;
        BuildItem(k, tree.items[k], d);
        rest := rest - {k};
      }
    }
  }

  /** The mappings of a document that may be missing, and what it says. */
  ghost function ReprOf(d: Document?): set<Document>
    reads d
  {
    if d == null then {} else d.Repr
  }

  function ValueOf(d: Document?): Option<Tree>
    requires d != null ==> d.Valid()
    reads d, if d == null then {} else d.Repr
  {
    if d == null then None else Some(d.Value())
  }
}
