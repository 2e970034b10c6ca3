/**
 * Persistence of the conformance-checker definitions (InteroperabilityManager):
 * the list is assembled into a `tns:ListOutput` document, saved with a
 * write-temporary / delete / rename protocol over `<cfg>` and `<cfg>.new`,
 * and read back by decoding every `conformanceChecker` element in document
 * order.
 *
 * A definition's own XML form (`Conformance.toXML` / `fromXML`), the XML
 * parser and the XML serialiser are parameters: `toXml` gives the document
 * element of a definition or None for null, `fromXml` gives the decoded
 * definition or None when decoding throws, `parse` gives the document
 * element of a text or None when parsing throws, and a `Serialiser` gives
 * the text of a document (None when the transformer throws), with or
 * without the XML declaration.
 */
module Interoperability {
  import opened Text
  import opened FileSystem

  /** An XML element: its qualified tag name, its namespace URI (None for
      an element created without one), its attributes in the order they
      were set and its child elements in document order. */
  datatype Element = Element(tag: string, ns: Option<string>, attrs: seq<(string, string)>, children: seq<Element>)

  /** A transformer: the text of a document (None stands for null), with
      the XML declaration omitted when the flag is set; None when the
      transformation throws. */
  type Serialiser = (Option<Element>, bool) -> Option<string>

  const Namespace := "http://www.preforma-project/interoperability"
  const RootTag := "tns:ListOutput"
  const XsiAttr := ("xmlns:xsi", "http://www.w3.org/2001/XMLSchema-instance")
  const SchemaAttr := ("xmlns:schemaLocation", "http://www.preforma-project/interoperability preformainteroperability.xsd")
  const CheckersTag := "ConformanceCheckers"
  const CheckerTag := "conformanceChecker"

  // ---------------------------------------------------------------------
  // Building the document (getXML)
  // ---------------------------------------------------------------------

  /** The document elements of the first n definitions that serialise to
      something (toXML non-null), in list order. */
  function Serialised<C>(cs: seq<C>, toXml: C -> Option<Element>, n: nat): seq<Element>
    requires n <= |cs|
  {
    if n == 0 then []
    else
      var rest := Serialised(cs, toXml, n - 1);
      match toXml(cs[n - 1])
      case Some(e) => rest + [e]
      case None => rest
  }

  /** The positions among the first n definitions of those that serialise
      to something. */
  function Present<C>(cs: seq<C>, toXml: C -> Option<Element>, n: nat): seq<nat>
    requires n <= |cs|
  {
    if n == 0 then []
    else Present(cs, toXml, n - 1) + (if toXml(cs[n - 1]).Some? then [n - 1] else [])
  }

  /** One element per non-null definition: the k-th serialised element is
      the form of the definition at the k-th present position. */
  lemma {:induction false} SerialisedForms<C>(cs: seq<C>, toXml: C -> Option<Element>, n: nat)
    requires n <= |cs|
    ensures |Serialised(cs, toXml, n)| == |Present(cs, toXml, n)| <= n
    ensures forall k :: 0 <= k < |Present(cs, toXml, n)| ==>
              Present(cs, toXml, n)[k] < n && toXml(cs[Present(cs, toXml, n)[k]]) == Some(Serialised(cs, toXml, n)[k])
  {
    if n > 0 {
      SerialisedForms(cs, toXml, n - 1);
    }
  }

  /** In list order, and nothing dropped: the present positions increase
      and every definition that serialises is present. */
  lemma {:induction false} PresentInOrder<C>(cs: seq<C>, toXml: C -> Option<Element>, n: nat)
    requires n <= |cs|
    ensures forall k :: 0 <= k < |Present(cs, toXml, n)| ==> Present(cs, toXml, n)[k] < n
    ensures forall k, l :: 0 <= k < l < |Present(cs, toXml, n)| ==> Present(cs, toXml, n)[k] < Present(cs, toXml, n)[l]
    ensures forall i :: 0 <= i < n && toXml(cs[i]).Some? ==> i in Present(cs, toXml, n)
  {
    if n > 0 {
      PresentInOrder(cs, toXml, n - 1);
    }
  }

  /** When every definition serialises, the elements are their forms one
      for one. */
  lemma SerialisedAll<C>(cs: seq<C>, toXml: C -> Option<Element>)
    requires forall i :: 0 <= i < |cs| ==> toXml(cs[i]).Some?
    ensures |Serialised(cs, toXml, |cs|)| == |cs|
    ensures forall i :: 0 <= i < |cs| ==> Serialised(cs, toXml, |cs|)[i] == toXml(cs[i]).value
  {
    SerialisedForms(cs, toXml, |cs|);
    PresentAll(cs, toXml, |cs|);
  }

  lemma {:induction false} PresentAll<C>(cs: seq<C>, toXml: C -> Option<Element>, n: nat)
    requires n <= |cs|
    requires forall i :: 0 <= i < |cs| ==> toXml(cs[i]).Some?
    ensures Present(cs, toXml, n) == seq(n, i => i)
  {
    if n > 0 {
      PresentAll(cs, toXml, n - 1);
    }
  }

  /** The document getXML assembles around the serialised definitions. */
  function ListOutput(nodes: seq<Element>): (d: Element)
    ensures d.tag == RootTag && d.ns == Some(Namespace)
    ensures d.attrs == [XsiAttr, SchemaAttr]
    ensures |d.children| == 1
    ensures d.children[0].tag == CheckersTag && d.children[0].ns == None && d.children[0].attrs == []
    ensures d.children[0].children == nodes
  {
    Element(RootTag, Some(Namespace), [XsiAttr, SchemaAttr], [Element(CheckersTag, None, [], nodes)])
  }

  /** `getXML`: None (null) when no document builder can be had, otherwise
      the list document holding one node per non-null definition, in order. */
  method GetXml<C>(conformances: seq<C>, toXml: C -> Option<Element>, builderOk: bool) returns (doc: Option<Element>)
    ensures doc == if builderOk then Some(ListOutput(Serialised(conformances, toXml, |conformances|))) else None
  {
    if !builderOk {
      return None;
    }
    var nodes: seq<Element> := [];
    for i := 0 to |conformances|
      invariant nodes == Serialised(conformances, toXml, i)
    {
      var d := toXml(conformances[i]);
      if d.Some? {
        nodes := nodes + [d.value];
      }
    }
    doc := Some(ListOutput(nodes));
  }

  /** `getString`: the document's text without the XML declaration, or the
      empty string when the transformation throws. */
  method GetString<C>(conformances: seq<C>, toXml: C -> Option<Element>, builderOk: bool, serialise: Serialiser)
    returns (s: string)
    ensures var doc := if builderOk then Some(ListOutput(Serialised(conformances, toXml, |conformances|))) else None;
            s == match serialise(doc, true) case Some(x) => x case None => ""
  {
    var doc := GetXml(conformances, toXml, builderOk);
    var out := serialise(doc, true);
    if out.None? {
      return "";
    }
    s := out.value;
  }

  // ---------------------------------------------------------------------
  // Reading the definitions back (readConformanceCheckers, loadFrom...)
  // ---------------------------------------------------------------------

  /** The elements named `tag` in and beneath `es[i..]`, in document order. */
  function ByTag(es: seq<Element>, tag: string, i: nat): seq<Element>
    requires i <= |es|
    decreases es, |es| - i
  {
    if i == |es| then []
    else (if es[i].tag == tag then [es[i]] else []) + ByTag(es[i].children, tag, 0) + ByTag(es, tag, i + 1)
  }

  /** Every element found carries the tag searched for. */
  lemma {:induction false} ByTagNamed(es: seq<Element>, tag: string, i: nat)
    requires i <= |es|
    ensures forall k :: 0 <= k < |ByTag(es, tag, i)| ==> ByTag(es, tag, i)[k].tag == tag
    decreases es, |es| - i
  {
    if i < |es| {
      ByTagNamed(es[i].children, tag, 0);
      ByTagNamed(es, tag, i + 1);
    }
  }

  /** `getElementsByTagName` on an element: its descendants named `tag`,
      in document order, the element itself excluded. */
  function ElementsByTag(e: Element, tag: string): seq<Element> {
    ByTag(e.children, tag, 0)
  }

  /** The definitions decoded from `nodes[i..]` in order, up to the first
      node whose decoding throws. */
  function Decoded<C>(nodes: seq<Element>, fromXml: Element -> Option<C>, i: nat): seq<C>
    requires i <= |nodes|
    decreases |nodes| - i
  {
    if i == |nodes| then []
    else match fromXml(nodes[i])
      case None => []
      case Some(c) => [c] + Decoded(nodes, fromXml, i + 1)
  }

  /** The decoded list is the longest run of nodes from i on that decodes:
      each entry is its node's definition, and when the list stops short
      the next node is the one whose decoding threw. */
  lemma {:induction false} DecodedPrefix<C>(nodes: seq<Element>, fromXml: Element -> Option<C>, i: nat)
    requires i <= |nodes|
    ensures |Decoded(nodes, fromXml, i)| <= |nodes| - i
    ensures forall k :: 0 <= k < |Decoded(nodes, fromXml, i)| ==>
              fromXml(nodes[i + k]) == Some(Decoded(nodes, fromXml, i)[k])
    ensures |Decoded(nodes, fromXml, i)| < |nodes| - i ==> fromXml(nodes[i + |Decoded(nodes, fromXml, i)|]).None?
    decreases |nodes| - i
  {
    if i < |nodes| && fromXml(nodes[i]).Some? {
      DecodedPrefix(nodes, fromXml, i + 1);
    }
  }

  /** `readConformanceCheckers`: decode the `conformanceChecker` elements of
      the document one by one; an exception ends the loop and the
      definitions decoded so far are returned. */
  method ReadConformanceCheckers<C>(doc: Element, fromXml: Element -> Option<C>) returns (cs: seq<C>)
    ensures cs == Decoded(ElementsByTag(doc, CheckerTag), fromXml, 0)
  {
    var nodes := ElementsByTag(doc, CheckerTag);
    cs := [];
    var i := 0;
    while i < |nodes|
      invariant 0 <= i <= |nodes|
      invariant Decoded(nodes, fromXml, 0) == cs + Decoded(nodes, fromXml, i)
    {
      var c := fromXml(nodes[i]);
      if c.None? {
        return;
      }
      cs := cs + [c.value];
      i := i + 1;
    }
  }

  /** What a text yields as a list of definitions: nothing when it does not
      parse, otherwise the decoded `conformanceChecker` elements. */
  function Parsed<C>(text: string, parse: string -> Option<Element>, fromXml: Element -> Option<C>): seq<C> {
    match parse(text)
    case None => []
    case Some(d) => Decoded(ElementsByTag(d, CheckerTag), fromXml, 0)
  }

  /** What loadFromFile yields for the tree: nothing unless the
      configuration path holds a file (a directory fails to parse). */
  function LoadedFrom<C>(t: Tree, cfg: Path, parse: string -> Option<Element>, fromXml: Element -> Option<C>): seq<C> {
    if IsFile(t, cfg) then Parsed(t[cfg].content, parse, fromXml) else []
  }

  /** `loadFromFile`: the definitions stored in the configuration file,
      none when it does not exist or does not parse. */
  method LoadFromFile<C>(fs: FileSystem, cfg: Path, parse: string -> Option<Element>, fromXml: Element -> Option<C>)
    returns (cs: seq<C>)
    ensures cfg !in fs.tree ==> cs == []
    ensures cs == LoadedFrom(fs.tree, cfg, parse, fromXml)
  {
    cs := [];
    if fs.Exists(cfg) {
      var text := fs.Read(cfg);
      if text.Some? {
        var doc := parse(text.value);
        if doc.Some? {
          var read := ReadConformanceCheckers(doc.value, fromXml);
          cs := cs + read;
        }
      }
    }
  }

  /** `loadFromBuiltIn`: the definitions of the built-in text, empty when
      it does not parse. */
  method LoadFromBuiltIn<C>(builtIn: string, parse: string -> Option<Element>, fromXml: Element -> Option<C>)
    returns (cs: seq<C>)
    ensures parse(builtIn).None? ==> cs == []
    ensures cs == Parsed(builtIn, parse, fromXml)
  {
    cs := [];
    var doc := parse(builtIn);
    if doc.Some? {
      cs := ReadConformanceCheckers(doc.value, fromXml);
    }
  }

  // ---------------------------------------------------------------------
  // Saving (writeChanges)
  // ---------------------------------------------------------------------

  /** `<cfg>.new`, the sibling the new content is written to first. */
  function NewPath(cfg: Path): (p: Path)
    requires cfg != []
    ensures p != [] && Parent(p) == Parent(cfg) && p != cfg && !Under(p, cfg) && !Under(cfg, p)
  {
    var p := Parent(cfg) + [cfg[|cfg| - 1] + ".new"];
    assert p[|p| - 1] != cfg[|cfg| - 1];
    p
  }

  /** The save protocol on a tree, given the serialised text (None when
      the transformation throws): write `<cfg>.new`, delete `<cfg>`, and
      rename the new file onto it, answering the rename's result. */
  function SaveT(t: Tree, cfg: Path, text: Option<string>): (Tree, bool)
    requires cfg != []
  {
    if text.None? then (t, false)
    else
      var (t1, written) := WriteT(t, NewPath(cfg), text.value);
      if !written then (t1, false)
      else RenameT(DeleteT(t1, cfg).0, NewPath(cfg), cfg)
  }

  /** The delete-and-rename half of the save, once `<cfg>.new` holds `c`:
      it succeeds unless `<cfg>` is a non-empty directory, and then
      `<cfg>` holds `c` and `<cfg>.new` is gone; otherwise nothing moves. */
  lemma ReplaceStep(t1: Tree, cfg: Path, c: string)
    requires cfg != [] && NewPath(cfg) in t1 && t1[NewPath(cfg)] == File(c) && IsDir(t1, Parent(cfg))
    ensures var (t', ok) := RenameT(DeleteT(t1, cfg).0, NewPath(cfg), cfg);
            && (ok <==> !(IsDir(t1, cfg) && HasChildren(t1, cfg)))
            && (ok ==> t' == (t1 - {NewPath(cfg)})[cfg := File(c)])
            && (!ok ==> t' == t1)
  {
    var nw := NewPath(cfg);
    var t2 := DeleteT(t1, cfg).0;
    if !(IsDir(t1, cfg) && HasChildren(t1, cfg)) {
      assert IsFile(t2, nw) && !IsDir(t2, cfg) && IsDir(t2, Parent(cfg));
      assert (t2 - {nw})[cfg := File(c)] == (t1 - {nw})[cfg := File(c)];
    }
  }

  /** Writing `<cfg>.new` puts nothing beneath `<cfg>`. */
  lemma SiblingWrite(t: Tree, cfg: Path, c: string)
    requires cfg != []
    ensures HasChildren(t[NewPath(cfg) := File(c)], cfg) <==> HasChildren(t, cfg)
  {
    if HasChildren(t[NewPath(cfg) := File(c)], cfg) {
      var q :| q in t[NewPath(cfg) := File(c)] && Under(q, cfg);
      assert q != NewPath(cfg);
    }
  }

  /** The save keeps the tree well formed. */
  lemma SaveWellFormed(t: Tree, cfg: Path, text: Option<string>)
    requires WellFormed(t) && cfg != []
    ensures WellFormed(SaveT(t, cfg, text).0)
  {
    if text.Some? {
      var (t1, written) := WriteT(t, NewPath(cfg), text.value);
      WriteWellFormed(t, NewPath(cfg), text.value);
      DeleteWellFormed(t1, cfg);
      RenameWellFormed(DeleteT(t1, cfg).0, NewPath(cfg), cfg);
    }
  }

  /** The save succeeds exactly when the text exists, the configuration
      folder is a directory, `<cfg>.new` is not a directory and `<cfg>` is
      not a non-empty directory. On success `<cfg>` holds the text,
      `<cfg>.new` is gone and nothing else changes; a failure before the
      delete changes nothing; a failure after it leaves `<cfg>` alone and
      the text in `<cfg>.new`. */
  lemma SaveEffect(t: Tree, cfg: Path, text: Option<string>)
    requires WellFormed(t) && cfg != []
    ensures var (t', ok) := SaveT(t, cfg, text);
            && WellFormed(t')
            && (ok <==> text.Some? && IsDir(t, Parent(cfg)) && !IsDir(t, NewPath(cfg))
                        && !(IsDir(t, cfg) && HasChildren(t, cfg)))
            && (ok ==> t' == (t - {NewPath(cfg)})[cfg := File(text.value)])
            && (text.None? || !IsDir(t, Parent(cfg)) || IsDir(t, NewPath(cfg)) ==> t' == t)
            && (!ok && text.Some? && IsDir(t, Parent(cfg)) && !IsDir(t, NewPath(cfg)) ==>
                  t' == t[NewPath(cfg) := File(text.value)])
  {
    SaveWellFormed(t, cfg, text);
    if text.Some? && WriteT(t, NewPath(cfg), text.value).1 {
      var t1 := t[NewPath(cfg) := File(text.value)];
      ReplaceStep(t1, cfg, text.value);
      SiblingWrite(t, cfg, text.value);
      assert (t1 - {NewPath(cfg)})[cfg := File(text.value)] == (t - {NewPath(cfg)})[cfg := File(text.value)];
    }
  }

  /** `writeChanges`: serialise the document with its declaration into
      `<cfg>.new`, delete `<cfg>`, rename; false when an exception is
      thrown before the delete, otherwise the rename's result. */
  method WriteChanges<C>(fs: FileSystem, cfg: Path, conformances: seq<C>, toXml: C -> Option<Element>,
                         builderOk: bool, serialise: Serialiser) returns (ok: bool)
    requires fs.Valid() && cfg != []
    modifies fs
    ensures fs.Valid()
    ensures var doc := if builderOk then Some(ListOutput(Serialised(conformances, toXml, |conformances|))) else None;
            (fs.tree, ok) == SaveT(old(fs.tree), cfg, serialise(doc, false))
  {
    var nw := NewPath(cfg);
    var doc := GetXml(conformances, toXml, builderOk);
    var text := serialise(doc, false);
    if text.None? {
      return false;
    }
    var written := fs.Write(nw, text.value);
    if !written {
      return false;
    }
    var _ := fs.Delete(cfg);
    ok := fs.Rename(nw, cfg);
  }

  // ---------------------------------------------------------------------
  // Round trips
  // ---------------------------------------------------------------------

  /** A `conformanceChecker` element with no `conformanceChecker` beneath it. */
  predicate Flat(e: Element) {
    e.tag == CheckerTag && ByTag(e.children, CheckerTag, 0) == []
  }

  /** A definition serialises to a flat checker element that decodes back
      to the definition. */
  ghost predicate RoundTrips<C>(c: C, toXml: C -> Option<Element>, fromXml: Element -> Option<C>) {
    toXml(c).Some? && Flat(toXml(c).value) && fromXml(toXml(c).value) == Some(c)
  }

  /** Every definition of the list round-trips. */
  ghost predicate AllRoundTrip<C>(cs: seq<C>, toXml: C -> Option<Element>, fromXml: Element -> Option<C>) {
    forall i :: 0 <= i < |cs| ==> RoundTrips(cs[i], toXml, fromXml)
  }

  /** `nodes` are flat checker elements decoding to `cs`, one for one. */
  ghost predicate FormsOf<C>(nodes: seq<Element>, cs: seq<C>, fromXml: Element -> Option<C>) {
    |nodes| == |cs| && forall i :: 0 <= i < |cs| ==> Flat(nodes[i]) && fromXml(nodes[i]) == Some(cs[i])
  }

  /** Flat checker elements are found one for one. */
  lemma {:induction false} ByTagFlat(nodes: seq<Element>, i: nat)
    requires i <= |nodes|
    requires forall j :: i <= j < |nodes| ==> Flat(nodes[j])
    ensures ByTag(nodes, CheckerTag, i) == nodes[i..]
    decreases |nodes| - i
  {
    if i < |nodes| {
      ByTagFlat(nodes, i + 1);
      assert [nodes[i]] + nodes[i + 1..] == nodes[i..];
    }
  }

  /** Nodes that each decode are decoded one for one. */
  lemma {:induction false} DecodedAll<C>(nodes: seq<Element>, cs: seq<C>, fromXml: Element -> Option<C>, i: nat)
    requires i <= |nodes| == |cs|
    requires forall j :: i <= j < |nodes| ==> fromXml(nodes[j]) == Some(cs[j])
    ensures Decoded(nodes, fromXml, i) == cs[i..]
    decreases |nodes| - i
  {
    if i < |nodes| {
      DecodedAll(nodes, cs, fromXml, i + 1);
      assert [cs[i]] + cs[i + 1..] == cs[i..];
    }
  }

  /** The serialised forms of definitions that round-trip are flat and
      decode to the definitions, one for one. */
  lemma SerialisedRoundTrips<C>(cs: seq<C>, toXml: C -> Option<Element>, fromXml: Element -> Option<C>)
    requires AllRoundTrip(cs, toXml, fromXml)
    ensures FormsOf(Serialised(cs, toXml, |cs|), cs, fromXml)
  {
    SerialisedAll(cs, toXml);
  }

  /** The checker elements of the list document are those among its
      serialised nodes. */
  lemma ListOutputCheckers(nodes: seq<Element>)
    ensures ElementsByTag(ListOutput(nodes), CheckerTag) == ByTag(nodes, CheckerTag, 0)
  {
    var c := Element(CheckersTag, None, [], nodes);
    assert c.tag != CheckerTag by {
      assert |CheckersTag| != |CheckerTag|;
    }
    var found := ByTag([c], CheckerTag, 0);
    assert found == [] + ByTag(nodes, CheckerTag, 0) + ByTag([c], CheckerTag, 1);
    assert found == ByTag(nodes, CheckerTag, 0);
  }

  /** The list document read back: its `conformanceChecker` elements decode
      to the list it was built from. */
  lemma ReadBackNodes<C>(nodes: seq<Element>, cs: seq<C>, fromXml: Element -> Option<C>)
    requires FormsOf(nodes, cs, fromXml)
    ensures Decoded(ElementsByTag(ListOutput(nodes), CheckerTag), fromXml, 0) == cs
  {
    ByTagFlat(nodes, 0);
    ListOutputCheckers(nodes);
    DecodedAll(nodes, cs, fromXml, 0);
  }

  lemma ReadBack<C>(cs: seq<C>, toXml: C -> Option<Element>, fromXml: Element -> Option<C>)
    requires AllRoundTrip(cs, toXml, fromXml)
    ensures Decoded(ElementsByTag(ListOutput(Serialised(cs, toXml, |cs|)), CheckerTag), fromXml, 0) == cs
  {
    SerialisedRoundTrips(cs, toXml, fromXml);
    ReadBackNodes(Serialised(cs, toXml, |cs|), cs, fromXml);
  }

  /** A text that parses to `doc` yields the definitions decoded from it. */
  lemma ParsedDoc<C>(text: string, parse: string -> Option<Element>, fromXml: Element -> Option<C>, doc: Element)
    requires parse(text) == Some(doc)
    ensures Parsed(text, parse, fromXml) == Decoded(ElementsByTag(doc, CheckerTag), fromXml, 0)
  {
  }

  /** After a successful save, loading reads back the saved text. */
  lemma LoadAfterSave<C>(t: Tree, cfg: Path, text: Option<string>, parse: string -> Option<Element>,
                         fromXml: Element -> Option<C>)
    requires WellFormed(t) && cfg != [] && SaveT(t, cfg, text).1
    ensures text.Some? && LoadedFrom(SaveT(t, cfg, text).0, cfg, parse, fromXml) == Parsed(text.value, parse, fromXml)
  {
    SaveEffect(t, cfg, text);
  }

  /** Save then load: when the definitions round-trip, the saved text
      parses back to the list document and writeChanges succeeds,
      loadFromFile returns the saved list. */
  lemma SaveThenLoad<C>(t: Tree, cfg: Path, cs: seq<C>, toXml: C -> Option<Element>, fromXml: Element -> Option<C>,
                        parse: string -> Option<Element>, text: string)
    requires WellFormed(t) && cfg != []
    requires AllRoundTrip(cs, toXml, fromXml)
    requires parse(text) == Some(ListOutput(Serialised(cs, toXml, |cs|)))
    requires SaveT(t, cfg, Some(text)).1
    ensures LoadedFrom(SaveT(t, cfg, Some(text)).0, cfg, parse, fromXml) == cs
  {
    LoadAfterSave(t, cfg, Some(text), parse, fromXml);
    StringThenLoad(cs, toXml, fromXml, parse, text);
  }

  /** A text that parses to the list document, such as the one getString
      produces, loads back (as the built-in definition) as the list it was
      made from. */
  lemma StringThenLoad<C>(cs: seq<C>, toXml: C -> Option<Element>, fromXml: Element -> Option<C>,
                          parse: string -> Option<Element>, text: string)
    requires AllRoundTrip(cs, toXml, fromXml)
    requires parse(text) == Some(ListOutput(Serialised(cs, toXml, |cs|)))
    ensures Parsed(text, parse, fromXml) == cs
  {
    ParsedDoc(text, parse, fromXml, ListOutput(Serialised(cs, toXml, |cs|)));
    ReadBack(cs, toXml, fromXml);
  }

  /** A save that fails before the delete leaves a previously saved list
      loadable as it was. */
  lemma FailedSaveKeepsList<C>(t: Tree, cfg: Path, text: Option<string>, parse: string -> Option<Element>,
                               fromXml: Element -> Option<C>)
    requires WellFormed(t) && cfg != []
    requires text.None? || !IsDir(t, Parent(cfg)) || IsDir(t, NewPath(cfg))
    ensures !SaveT(t, cfg, text).1
    ensures LoadedFrom(SaveT(t, cfg, text).0, cfg, parse, fromXml) == LoadedFrom(t, cfg, parse, fromXml)
  {
    SaveEffect(t, cfg, text);
  }
}
