/**
 The layout pass `_indent` of cer_intent/yang_builder.py over the edit-config
 payload: first as a function on trees, then as the in-place rewrite it is.
 */
module XmlIndent {
  import opened Common

  /** An element with its text, its tail and its children, as in xml.etree.ElementTree. */
  datatype Xml = Xml(
    tag: string,
    attributes: map<string, string>,
    text: Option<string>,
    tail: Option<string>,
    children: seq<Xml>)

  /** The characters str.strip removes. */
  predicate IsSpace(c: char) {
    var n := c as int;
    || 0x09 <= n <= 0x0D || 0x1C <= n <= 0x20 || n == 0x85 || n == 0xA0 || n == 0x1680
    || 0x2000 <= n <= 0x200A || n == 0x2028 || n == 0x2029 || n == 0x202F || n == 0x205F || n == 0x3000
  }

  /** The same, one by one. */
  const WHITESPACE: string :=
    "\t\n\U{0B}\U{0C}\r\U{1C}\U{1D}\U{1E}\U{1F} \U{85}\U{A0}\U{1680}\U{2000}\U{2001}\U{2002}\U{2003}\U{2004}" +
    "\U{2005}\U{2006}\U{2007}\U{2008}\U{2009}\U{200A}\U{2028}\U{2029}\U{202F}\U{205F}\U{3000}"

  lemma SpacesAre(c: char)
    ensures IsSpace(c) <==> c in WHITESPACE
  {
  }

  /** `not s or not s.strip()` */
  predicate IsBlank(s: Option<string>) {
    s.None? || forall c :: c in s.value ==> IsSpace(c)
  }

  function Spaces(n: nat): string {
    if n == 0 then "" else "  " + Spaces(n - 1)
  }

  function Newline(level: nat): string {
    "\n" + Spaces(level)
  }

  lemma {:induction false} SpacesAreBlank(n: nat)
    ensures forall c :: c in Spaces(n) ==> c == ' '
  {
    if n > 0 { SpacesAreBlank(n - 1); }
  }

  lemma NewlineIsBlank(level: nat)
    ensures IsBlank(Some(Newline(level)))
  {
    SpacesAreBlank(level);
  }

  function Fill(s: Option<string>, level: nat): Option<string> {
    if IsBlank(s) then Some(Newline(level)) else s
  }

  // ----- the pass, on values -----

  function Indent(x: Xml, level: nat): Xml
    decreases x, 1
  {
    if x.children == [] then
      if level > 0 then x.(tail := Fill(x.tail, level)) else x
    else
      var text := if IsBlank(x.text) then Some(Newline(level) + "  ") else x.text;
      Xml(x.tag, x.attributes, text, Fill(x.tail, level), CloseLast(IndentAll(x.children, level + 1), level))
  }

  function IndentAll(xs: seq<Xml>, level: nat): (ys: seq<Xml>)
    ensures |ys| == |xs|
    decreases xs, 0
  {
    if xs == [] then [] else [Indent(xs[0], level)] + IndentAll(xs[1..], level)
  }

  /** The statement after the loop: the last child's tail is written a second time, one level out. */
  function CloseLast(xs: seq<Xml>, level: nat): (ys: seq<Xml>)
    requires xs != []
    ensures |ys| == |xs|
  {
    xs[|xs| - 1 := xs[|xs| - 1].(tail := Fill(xs[|xs| - 1].tail, level))]
  }

  // ----- what the pass must not touch -----

  /** The data of a tree: everything but blank tails and the blank text of elements with children. */
  function Data(x: Xml): Xml
    decreases x, 1
  {
    Xml(x.tag, x.attributes,
        if x.children != [] && IsBlank(x.text) then None else x.text,
        if IsBlank(x.tail) then None else x.tail,
        DataAll(x.children))
  }

  function DataAll(xs: seq<Xml>): (ys: seq<Xml>)
    ensures |ys| == |xs|
    decreases xs, 0
  {
    if xs == [] then [] else [Data(xs[0])] + DataAll(xs[1..])
  }

  lemma FillIsSound(s: Option<string>, level: nat)
    ensures IsBlank(Fill(s, level)) <==> IsBlank(s)
    ensures !IsBlank(s) ==> Fill(s, level) == s
    ensures IsBlank(s) ==> Fill(s, level) == Some(Newline(level))
  {
    NewlineIsBlank(level);
  }

  lemma TextIsBlank(level: nat)
    ensures IsBlank(Some(Newline(level) + "  "))
  {
    NewlineIsBlank(level);
    assert forall c :: c in Newline(level) + "  " ==> c in Newline(level) || c == ' ';
  }

  lemma {:induction false} DataAt(xs: seq<Xml>, i: nat)
    requires i < |xs|
    ensures DataAll(xs)[i] == Data(xs[i])
  {
    if i > 0 { DataAt(xs[1..], i - 1); }
  }

  lemma DataOfClosed(xs: seq<Xml>, level: nat)
    requires xs != []
    ensures DataAll(CloseLast(xs, level)) == DataAll(xs)
  {
    var ys := CloseLast(xs, level);
    forall i | 0 <= i < |xs| ensures DataAll(ys)[i] == DataAll(xs)[i] {
      DataAt(xs, i);
      DataAt(ys, i);
      FillIsSound(xs[i].tail, level);
    }
  }

  /** Tags, attributes, child order, leaf text and every non-blank text and tail survive. */
  lemma {:induction false} IndentKeepsData(x: Xml, level: nat)
    ensures Data(Indent(x, level)) == Data(x)
    decreases x, 1
  {
    FillIsSound(x.tail, level);
    TextIsBlank(level);
    if x.children != [] {
      IndentAllKeepsData(x.children, level + 1);
      DataOfClosed(IndentAll(x.children, level + 1), level);
    }
  }

  lemma {:induction false} IndentAllKeepsData(xs: seq<Xml>, level: nat)
    ensures DataAll(IndentAll(xs, level)) == DataAll(xs)
    decreases xs, 0
  {
    if xs != [] {
      IndentKeepsData(xs[0], level);
      IndentAllKeepsData(xs[1..], level);
    }
  }

  ghost predicate HasVisible(s: Option<string>) {
    s.Some? && exists c :: c in s.value && c !in WHITESPACE
  }

  lemma VisibleIsNotBlank(s: Option<string>)
    ensures HasVisible(s) <==> !IsBlank(s)
  {
    if s.Some? {
      forall c | c in s.value ensures IsSpace(c) <==> c in WHITESPACE {
        SpacesAre(c);
      }
    }
  }

  /** Text and tail with a visible character stay, as do all text without children and the tail of a childless root. */
  lemma VisibleTextStays(x: Xml, level: nat)
    ensures HasVisible(x.text) || x.children == [] ==> Indent(x, level).text == x.text
    ensures HasVisible(x.tail) || (x.children == [] && level == 0) ==> Indent(x, level).tail == x.tail
  {
    VisibleIsNotBlank(x.text);
    VisibleIsNotBlank(x.tail);
  }

  // ----- idempotence -----

  lemma {:induction false} IndentAt(xs: seq<Xml>, level: nat, i: nat)
    requires i < |xs|
    ensures IndentAll(xs, level)[i] == Indent(xs[i], level)
  {
    if i > 0 { IndentAt(xs[1..], level, i - 1); }
  }

  /** An inner element's new tail depends on its old one only through being blank or not. */
  lemma IndentTail(x: Xml, level: nat)
    requires level > 0
    ensures Indent(x, level).tail == Fill(x.tail, level)
    ensures Indent(x.(tail := Fill(x.tail, level - 1)), level) == Indent(x, level)
  {
    FillIsSound(x.tail, level - 1);
  }

  /** Closing the last child and laying the children out again only undoes the closing. */
  lemma IndentOfClosed(xs: seq<Xml>, level: nat)
    requires xs != [] && forall i :: 0 <= i < |xs| ==> Indent(xs[i], level + 1) == xs[i]
    ensures CloseLast(IndentAll(CloseLast(xs, level), level + 1), level) == CloseLast(xs, level)
  {
    var ys := CloseLast(xs, level);
    forall i | 0 <= i < |xs| ensures IndentAll(ys, level + 1)[i] == xs[i] {
      ClosedChild(xs, level, i);
      IndentAt(ys, level + 1, i);
    }
    assert IndentAll(ys, level + 1) == xs;
  }

  lemma ClosedChild(xs: seq<Xml>, level: nat, i: nat)
    requires i < |xs| && Indent(xs[i], level + 1) == xs[i]
    ensures Indent(CloseLast(xs, level)[i], level + 1) == xs[i]
  {
    if i == |xs| - 1 { IndentTail(xs[i], level + 1); }
  }

  /** Laying out twice is laying out once. */
  lemma {:induction false} IndentIsIdempotent(x: Xml, level: nat)
    ensures Indent(Indent(x, level), level) == Indent(x, level)
    decreases x
  {
    FillIsSound(x.tail, level);
    TextIsBlank(level);
    if x.children != [] {
      var kids := IndentAll(x.children, level + 1);
      forall i | 0 <= i < |kids| ensures Indent(kids[i], level + 1) == kids[i] {
        IndentAt(x.children, level + 1, i);
        IndentIsIdempotent(x.children[i], level + 1);
      }
      IndentOfClosed(kids, level);
    }
  }

  // ----- what the layout looks like -----

  lemma OneStepMore(level: nat)
    ensures Newline(level) + "  " == Newline(level + 1)
  {
    SpacesCommute(level);
    assert Newline(level) + "  " == "\n" + (Spaces(level) + "  ");
  }

  lemma {:induction false} SpacesCommute(n: nat)
    ensures Spaces(n) + "  " == "  " + Spaces(n)
  {
    if n > 0 {
      SpacesCommute(n - 1);
      assert Spaces(n) + "  " == "  " + (Spaces(n - 1) + "  ");
    }
  }

  /** What stands before the i-th child's start tag: the parent's text, or the tail of the child before. */
  function Before(x: Xml, i: nat): Option<string>
    requires i <= |x.children| && x.children != []
  {
    if i == 0 then x.text else x.children[i - 1].tail
  }

  lemma {:induction false} IndentedChildTail(x: Xml, level: nat, j: nat)
    requires j < |x.children|
    ensures |Indent(x, level).children| == |x.children|
    ensures Indent(x, level).children[j].tail ==
            var inner := Fill(x.children[j].tail, level + 1);
            if j == |x.children| - 1 then Fill(inner, level) else inner
  {
    IndentAt(x.children, level + 1, j);
    IndentTail(x.children[j], level + 1);
  }

  /**
   Where the tree had only blanks, every child starts on a new line one step further in than its parent,
   and the parent's end tag stands on a new line at the parent's own level.
   */
  lemma {:induction false} IndentLaysOut(x: Xml, level: nat, i: nat)
    requires i <= |x.children| && x.children != [] && IsBlank(Before(x, i))
    ensures var y := Indent(x, level);
            && |y.children| == |x.children|
            && Before(y, i) == Some(Newline(if i < |x.children| then level + 1 else level))
  {
    if i == 0 {
      OneStepMore(level);
    } else {
      IndentedChildTail(x, level, i - 1);
      FillIsSound(x.children[i - 1].tail, level + 1);
      NewlineIsBlank(level + 1);
    }
  }
}
