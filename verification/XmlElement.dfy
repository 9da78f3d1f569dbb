/** `_indent` as it runs: a recursion that overwrites `text` and `tail` of a tree of mutable elements. */
module XmlElement {
  import opened Common
  import X = XmlIndent

  class Element {
    const tag: string
    const attributes: map<string, string>
    const children: seq<Element>
    var text: Option<string>
    var tail: Option<string>
    ghost const Repr: set<Element>

    /** The elements form a tree: subtrees are disjoint and do not contain their parent. */
    ghost predicate Valid()
      decreases Repr
    {
      && this in Repr
      && (forall i :: 0 <= i < |children| ==>
            children[i].Repr <= Repr && this !in children[i].Repr && children[i].Repr < Repr && children[i].Valid())
      && (forall i, j :: 0 <= i < j < |children| ==> children[i].Repr !! children[j].Repr)
    }

    constructor (
        tag: string, attributes: map<string, string>, text: Option<string>, tail: Option<string>,
        children: seq<Element>)
      requires forall i :: 0 <= i < |children| ==> children[i].Valid()
      requires forall i, j :: 0 <= i < j < |children| ==> children[i].Repr !! children[j].Repr
      ensures Valid() && this.children == children && this.tag == tag && this.attributes == attributes
      ensures this.text == text && this.tail == tail
    {
      this.tag, this.attributes, this.text, this.tail, this.children := tag, attributes, text, tail, children;
      this.Repr := {this} + set i, e | 0 <= i < |children| && e in children[i].Repr :: e;
      new;
      forall i | 0 <= i < |children| ensures children[i].Repr < Repr && this !in children[i].Repr {
        assert children[i] in children[i].Repr;
      }
    }

    /** The tree as a value. */
    ghost function Tree(): X.Xml
      requires Valid()
      reads Repr
      decreases Repr, |children| + 1
    {
      X.Xml(tag, attributes, text, tail, Trees(0))
    }

    /** The values of the children from the i-th on. */
    ghost function Trees(i: nat): (ts: seq<X.Xml>)
      requires Valid() && i <= |children|
      reads Repr - {this}
      ensures |ts| == |children| - i
      decreases Repr, |children| - i
    {
      if i == |children| then [] else [children[i].Tree()] + Trees(i + 1)
    }

    lemma {:induction false} TreesAt(i: nat, j: nat)
      requires Valid() && i <= j < |children|
      ensures Trees(i)[j - i] == children[j].Tree()
      decreases j - i
    {
      if i < j { TreesAt(i + 1, j); }
    }

    lemma TreesAre()
      requires Valid()
      ensures forall j :: 0 <= j < |children| ==> Trees(0)[j] == children[j].Tree()
    {
      forall j | 0 <= j < |children| ensures Trees(0)[j] == children[j].Tree() {
        TreesAt(0, j);
      }
    }

    /** The loop over the children. */
    method IndentChildren(level: nat)
      requires Valid()
      modifies Repr - {this}
      ensures Trees(0) == X.IndentAll(old(Trees(0)), level)
      decreases Repr, 0
    {
      ghost var before := Trees(0);
      TreesAre();
      var i := 0;
      while i < |children|
        invariant 0 <= i <= |children|
        invariant forall j :: 0 <= j < i ==> children[j].Tree() == X.Indent(before[j], level)
        invariant forall j :: i <= j < |children| ==> children[j].Tree() == before[j]
      {
        children[i].Indent(level);
        i := i + 1;
      }
      TreesAre();
      forall j | 0 <= j < |children| ensures Trees(0)[j] == X.IndentAll(before, level)[j] {
        X.IndentAt(before, level, j);
      }
    }

    /** The statement after the loop. */
    method CloseLastChild(level: nat)
      requires Valid() && children != []
      modifies children[|children| - 1]
      ensures Trees(0) == X.CloseLast(old(Trees(0)), level)
    {
      ghost var before := Trees(0);
      TreesAre();
      var child := children[|children| - 1];
      if X.IsBlank(child.tail) {
        child.tail := Some(X.Newline(level));
      }
      TreesAre();
      forall j | 0 <= j < |children| ensures Trees(0)[j] == X.CloseLast(before, level)[j] {
        if j < |children| - 1 {
          assert children[j].Repr !! child.Repr;
          assert children[j].Tree() == before[j];
        }
      }
    }

    /** The element's own text and tail, before the loop. */
    method OpenElement(level: nat)
      requires Valid()
      modifies this
      ensures text == (if X.IsBlank(old(text)) then Some(X.Newline(level) + "  ") else old(text))
      ensures tail == X.Fill(old(tail), level)
      ensures Trees(0) == old(Trees(0))
    {
      if X.IsBlank(text) {
        text := Some(X.Newline(level) + "  ");
      }
      if X.IsBlank(tail) {
        tail := Some(X.Newline(level));
      }
    }

    method IndentInner(level: nat)
      requires Valid() && children != []
      modifies Repr
      ensures Tree() == X.Indent(old(Tree()), level)
      decreases Repr, 1
    {
      OpenElement(level);
      IndentChildren(level + 1);
      var last := children[|children| - 1];
      assert last in last.Repr;
      assert last != this;
      CloseLastChild(level);
    }

    method Indent(level: nat)
      requires Valid()
      modifies Repr
      ensures Tree() == X.Indent(old(Tree()), level)
      decreases Repr, 2
    {
      if children != [] {
        IndentInner(level);
      } else if level > 0 && X.IsBlank(tail) {
        tail := Some(X.Newline(level));
      }
    }
  }
}
