/** The selection text aggregator of the plugin: the module-level `currentText`
    string and `processedNodeIds` set, and the two routines that update them on
    every selection change (`updateSelectedText`) and before every request
    (`getTextFromNodes`). */
module Aggregator {

  /** A layer id of the host document (an opaque string such as "12:34"). */
  type Id = string

  /** A selected layer: its id, whether its type is 'TEXT', and its characters. */
  datatype Node = Node(id: Id, isText: bool, chars: string)

  /** The text shown when no text layer is selected. */
  const Sentinel: string := "No text selected"

  /** What separates the texts of two layers. */
  const Separator: string := "\n\n"

  /** The two module-level variables, as a value. */
  datatype AggState = AggState(text: string, processed: set<Id>)

  /** The message posted to the UI after a selection change. */
  datatype Report = SelectedText(text: string, count: nat)

  /** The text a node contributes: its characters when it is a text layer. */
  function GetTextFromNode(n: Node): string
  {
    if n.isText then n.chars else ""
  }

  /** Whether some node of the selection is a text layer. */
  function HasTextNodes(nodes: seq<Node>): (r: bool)
    ensures r <==> exists n :: n in nodes && n.isText
  {
    if nodes == [] then false
    else HasTextNodes(nodes[..|nodes| - 1]) || nodes[|nodes| - 1].isText
  }

  /** The text layers of a selection, in selection order. */
  function TextNodes(sel: seq<Node>): (r: seq<Node>)
    ensures |r| <= |sel|
  {
    if sel == [] then []
    else
      var last := sel[|sel| - 1];
      TextNodes(sel[..|sel| - 1]) + (if last.isText then [last] else [])
  }

  /** The set of ids of a sequence of nodes. */
  function IdsOf(nodes: seq<Node>): set<Id>
  {
    if nodes == [] then {}
    else IdsOf(nodes[..|nodes| - 1]) + {nodes[|nodes| - 1].id}
  }

  /** The ids of the text layers of a selection. */
  function TextIds(sel: seq<Node>): set<Id>
  {
    IdsOf(TextNodes(sel))
  }

  /** Whether equal ids mean equal nodes, as in a selection of the host document. */
  predicate IdsIdentify(nodes: seq<Node>)
  {
    forall a, b :: a in nodes && b in nodes && a.id == b.id ==> a == b
  }

  /** The id-to-text map built by `forEach` over `nodes`: a later node with the
      same id overwrites an earlier one. */
  function TextMap(nodes: seq<Node>): map<Id, string>
  {
    if nodes == [] then map[]
    else
      var last := nodes[|nodes| - 1];
      TextMap(nodes[..|nodes| - 1])[last.id := GetTextFromNode(last)]
  }

  /** A map lookup; an absent id gives `undefined`, which the later
      non-empty filter drops exactly like the empty string. */
  function Lookup(m: map<Id, string>, id: Id): string
  {
    if id in m then m[id] else ""
  }

  /** First stage of the chain: the text layers of the selection whose ids are
      not in `processed`, in selection order. */
  function NewNodes(sel: seq<Node>, processed: set<Id>): (r: seq<Node>)
  {
    if sel == [] then []
    else
      var last := sel[|sel| - 1];
      NewNodes(sel[..|sel| - 1], processed)
        + (if last.isText && last.id !in processed then [last] else [])
  }

  /** Second stage: the mapped text of each new node. */
  function Lookups(recent: seq<Node>, m: map<Id, string>): (r: seq<string>)
    ensures |r| == |recent|
  {
    if recent == [] then []
    else Lookups(recent[..|recent| - 1], m) + [Lookup(m, recent[|recent| - 1].id)]
  }

  /** Third stage: the texts that are not empty, in order. */
  function NonEmpty(texts: seq<string>): (r: seq<string>)
    ensures forall t :: t in r <==> t in texts && t != ""
  {
    if texts == [] then []
    else
      var last := texts[|texts| - 1];
      NonEmpty(texts[..|texts| - 1]) + (if last != "" then [last] else [])
  }

  /** `Array.prototype.join` with the double line break. */
  function Join(parts: seq<string>): string
  {
    if parts == [] then ""
    else if |parts| == 1 then parts[0]
    else Join(parts[..|parts| - 1]) + Separator + parts[|parts| - 1]
  }

  /** How the increment is combined with the current text. */
  function Merge(current: string, increment: string): string
  {
    if current != "" && current != Sentinel && increment != "" then current + Separator + increment
    else if increment != "" then increment
    else current
  }

  /** The effect of `getTextFromNodes(nodes)` on the state, with `sel` the
      current selection. */
  function Absorb(s: AggState, sel: seq<Node>, nodes: seq<Node>): AggState
  {
    var recent := NewNodes(sel, s.processed);
    AggState(Merge(s.text, Join(NonEmpty(Lookups(recent, TextMap(nodes))))),
             s.processed + IdsOf(recent))
  }

  /** The effect of `updateSelectedText()` on the state, with `sel` the
      current selection. */
  function Update(s: AggState, sel: seq<Node>): AggState
  {
    var textNodes := TextNodes(sel);
    if |textNodes| == 0 then AggState(Sentinel, {})
    else Absorb(AggState(s.text, s.processed * IdsOf(textNodes)), sel, textNodes)
  }

  /** Reference definition of the increment's parts: the non-empty characters
      of the text layers of `sel` whose ids are not in `processed`, in
      selection order. */
  function FreshTexts(sel: seq<Node>, processed: set<Id>): seq<string>
  {
    if sel == [] then []
    else
      var last := sel[|sel| - 1];
      FreshTexts(sel[..|sel| - 1], processed)
        + (if last.isText && last.id !in processed && last.chars != "" then [last.chars] else [])
  }

  /** Appending a node adds its id. */
  lemma IdsOfSnoc(nodes: seq<Node>, x: Node)
    ensures IdsOf(nodes + [x]) == IdsOf(nodes) + {x.id}
  {
    assert (nodes + [x])[..|nodes|] == nodes;
  }

  /** A single node is kept exactly when it is a text layer. */
  lemma TextNodesSingle(n: Node)
    ensures TextNodes([n]) == if n.isText then [n] else []
  {
    assert [n][..0] == [];
  }

  /** The filter works node by node: the text layers of two consecutive parts
      of a selection are those of the first part followed by those of the
      second, so order and multiplicity are kept. */
  lemma {:induction false} TextNodesAppend(a: seq<Node>, b: seq<Node>)
    ensures TextNodes(a + b) == TextNodes(a) + TextNodes(b)
  {
    if b == [] {
      assert a + b == a;
    } else {
      var init, last := b[..|b| - 1], b[|b| - 1];
      assert (a + b)[..|a + b| - 1] == a + init;
      assert (a + b)[|a + b| - 1] == last;
      TextNodesAppend(a, init);
    }
  }

  /** The text layers of a selection are exactly its nodes of text type. */
  lemma {:induction false} TextNodesMembers(sel: seq<Node>)
    ensures forall n :: n in TextNodes(sel) <==> n in sel && n.isText
  {
    if sel != [] {
      var init, last := sel[..|sel| - 1], sel[|sel| - 1];
      TextNodesMembers(init);
      assert sel == init + [last];
    }
  }

  /** `hasTextNodes` agrees with the emptiness of the filtered selection. */
  lemma {:induction false} HasTextNodesIffTextNodes(sel: seq<Node>)
    ensures HasTextNodes(sel) <==> TextNodes(sel) != []
  {
    if sel != [] {
      HasTextNodesIffTextNodes(sel[..|sel| - 1]);
    }
  }

  /** A longer selection has at least the text ids of its prefix. */
  lemma TextIdsGrow(sel: seq<Node>)
    requires sel != []
    ensures TextIds(sel[..|sel| - 1]) <= TextIds(sel)
  {
    var last := sel[|sel| - 1];
    if last.isText {
      IdsOfSnoc(TextNodes(sel[..|sel| - 1]), last);
    } else {
      assert TextNodes(sel) == TextNodes(sel[..|sel| - 1]);
    }
  }

  /** The ids of the new nodes are the selected text ids not yet processed. */
  lemma {:induction false} NewNodesIds(sel: seq<Node>, processed: set<Id>)
    ensures IdsOf(NewNodes(sel, processed)) == TextIds(sel) - processed
  {
    if sel != [] {
      var init, last := sel[..|sel| - 1], sel[|sel| - 1];
      NewNodesIds(init, processed);
      var a, b := NewNodes(init, processed), TextNodes(init);
      if last.isText {
        assert TextNodes(sel) == b + [last];
        IdsOfSnoc(b, last);
        if last.id !in processed {
          assert NewNodes(sel, processed) == a + [last];
          IdsOfSnoc(a, last);
        } else {
          assert NewNodes(sel, processed) == a;
        }
      } else {
        assert TextNodes(sel) == b;
        assert NewNodes(sel, processed) == a;
      }
    }
  }

  /** Nothing is new once every selected text id is processed. */
  lemma NoNewNodesWhenAllProcessed(sel: seq<Node>, processed: set<Id>)
    requires TextIds(sel) <= processed
    ensures NewNodes(sel, processed) == []
  {
    NewNodesIds(sel, processed);
  }

  /** With ids identifying nodes, the map holds each node's own text. */
  lemma {:induction false} TextMapHoldsOwnText(nodes: seq<Node>, n: Node)
    requires IdsIdentify(nodes)
    requires n in nodes
    ensures Lookup(TextMap(nodes), n.id) == GetTextFromNode(n)
  {
    var init, last := nodes[..|nodes| - 1], nodes[|nodes| - 1];
    assert nodes == init + [last];
    if n.id != last.id {
      assert n in init;
      TextMapHoldsOwnText(init, n);
    }
  }

  /** Appending a node adds its looked-up text. */
  lemma LookupsSnoc(recent: seq<Node>, n: Node, m: map<Id, string>)
    ensures Lookups(recent + [n], m) == Lookups(recent, m) + [Lookup(m, n.id)]
  {
    assert (recent + [n])[..|recent|] == recent;
  }

  /** Appending a text keeps it when it is not empty. */
  lemma NonEmptySnoc(texts: seq<string>, t: string)
    ensures NonEmpty(texts + [t]) == NonEmpty(texts) + (if t != "" then [t] else [])
  {
    assert (texts + [t])[..|texts|] == texts;
  }

  /** The three stages, with a map that holds the text of every selected text
      layer, give the reference parts. */
  lemma {:induction false} StagesGiveFreshTexts(sel: seq<Node>, processed: set<Id>, m: map<Id, string>)
    requires forall n :: n in sel && n.isText ==> Lookup(m, n.id) == n.chars
    ensures NonEmpty(Lookups(NewNodes(sel, processed), m)) == FreshTexts(sel, processed)
  {
    if sel != [] {
      var init, last := sel[..|sel| - 1], sel[|sel| - 1];
      forall n | n in init
        ensures n in sel
      {
        var k :| 0 <= k < |init| && init[k] == n;
        assert sel[k] == n;
      }
      StagesGiveFreshTexts(init, processed, m);
      var a := NewNodes(init, processed);
      if last.isText && last.id !in processed {
        assert NewNodes(sel, processed) == a + [last];
        assert Lookup(m, last.id) == last.chars;
        LookupsSnoc(a, last, m);
        NonEmptySnoc(Lookups(a, m), last.chars);
      } else {
        assert NewNodes(sel, processed) == a;
      }
    }
  }

  /** Eviction only removes ids outside the selection, so it does not change
      which text layers count as new. */
  lemma {:induction false} FreshTextsIgnoreOtherIds(sel: seq<Node>, processed: set<Id>, ids: set<Id>)
    requires TextIds(sel) <= ids
    ensures FreshTexts(sel, processed * ids) == FreshTexts(sel, processed)
  {
    if sel != [] {
      var init, last := sel[..|sel| - 1], sel[|sel| - 1];
      TextIdsGrow(sel);
      FreshTextsIgnoreOtherIds(init, processed, ids);
      if last.isText {
        assert TextNodes(sel) == TextNodes(init) + [last];
        IdsOfSnoc(TextNodes(init), last);
      }
    }
  }

  /** After `getTextFromNodes` on the selection's text layers, every selected
      text id is processed, and no other id was added. */
  lemma AbsorbMarksSelected(s: AggState, sel: seq<Node>)
    ensures Absorb(s, sel, TextNodes(sel)).processed == s.processed + TextIds(sel)
  {
    NewNodesIds(sel, s.processed);
  }

  /** The text after `getTextFromNodes` on the selection's text layers: the
      non-empty texts of the text layers not yet processed, in selection
      order and joined by a double line break, merged into the current text. */
  lemma AbsorbText(s: AggState, sel: seq<Node>)
    requires IdsIdentify(sel)
    ensures Absorb(s, sel, TextNodes(sel)).text == Merge(s.text, Join(FreshTexts(sel, s.processed)))
  {
    var textNodes := TextNodes(sel);
    TextNodesMembers(sel);
    var m := TextMap(textNodes);
    forall n | n in sel && n.isText
      ensures Lookup(m, n.id) == n.chars
    {
      TextMapHoldsOwnText(textNodes, n);
    }
    StagesGiveFreshTexts(sel, s.processed, m);
  }

  /** A second `getTextFromNodes` with the same selection changes nothing:
      no text is duplicated. */
  lemma AbsorbIdempotent(s: AggState, sel: seq<Node>)
    ensures var t := TextNodes(sel);
            Absorb(Absorb(s, sel, t), sel, t) == Absorb(s, sel, t)
  {
    var t := TextNodes(sel);
    AbsorbMarksSelected(s, sel);
    NoNewNodesWhenAllProcessed(sel, Absorb(s, sel, t).processed);
  }

  /** When no layer of the selection is text, the state is reset regardless of
      what it was. */
  lemma ResetWithoutText(s: AggState, sel: seq<Node>)
    requires !HasTextNodes(sel)
    ensures Update(s, sel) == AggState(Sentinel, {})
  {
    HasTextNodesIffTextNodes(sel);
  }

  /** After a selection change with a text layer, the processed ids are exactly
      the ids of the selected text layers. */
  lemma ProcessedIsSelectedTextIds(s: AggState, sel: seq<Node>)
    requires HasTextNodes(sel)
    ensures Update(s, sel).processed == TextIds(sel)
  {
    HasTextNodesIffTextNodes(sel);
    NewNodesIds(sel, s.processed * TextIds(sel));
  }

  /** The text after a selection change: the non-empty texts of the text layers
      not processed before, in selection order and joined by a double line
      break, are appended after a separator, replace an empty or sentinel text,
      or leave the text alone when there are none. */
  lemma UpdateAppendsFreshTexts(s: AggState, sel: seq<Node>)
    requires IdsIdentify(sel)
    requires HasTextNodes(sel)
    ensures var inc := Join(FreshTexts(sel, s.processed));
            var t := Update(s, sel).text;
            && (inc == "" ==> t == s.text)
            && (inc != "" && s.text != "" && s.text != Sentinel ==> t == s.text + "\n\n" + inc)
            && (inc != "" && (s.text == "" || s.text == Sentinel) ==> t == inc)
  {
    HasTextNodesIffTextNodes(sel);
    var ids := TextIds(sel);
    AbsorbText(AggState(s.text, s.processed * ids), sel);
    FreshTextsIgnoreOtherIds(sel, s.processed, ids);
  }

  /** A second selection change with the same selection changes nothing: no
      text is duplicated. */
  lemma UpdateIdempotent(s: AggState, sel: seq<Node>)
    ensures Update(Update(s, sel), sel) == Update(s, sel)
  {
    if HasTextNodes(sel) {
      var s1 := Update(s, sel);
      ProcessedIsSelectedTextIds(s, sel);
      HasTextNodesIffTextNodes(sel);
      NoNewNodesWhenAllProcessed(sel, s1.processed * TextIds(sel));
    } else {
      ResetWithoutText(s, sel);
      ResetWithoutText(Update(s, sel), sel);
    }
  }

  /** Text layers without characters contribute nothing to the increment. */
  lemma {:induction false} FreshTextsOfEmptyLayers(sel: seq<Node>, processed: set<Id>)
    requires forall n :: n in sel && n.isText ==> n.chars == ""
    ensures FreshTexts(sel, processed) == []
  {
    if sel != [] {
      var init := sel[..|sel| - 1];
      assert forall n :: n in init ==> n in sel;
      FreshTextsOfEmptyLayers(init, processed);
    }
  }

  /** After the reset to the sentinel, a selection whose text layers all have
      empty characters leaves the sentinel in place: the merge replaces it
      only with a non-empty increment. */
  lemma EmptyLayersKeepSentinel(sel: seq<Node>)
    requires IdsIdentify(sel)
    requires HasTextNodes(sel)
    requires forall n :: n in sel && n.isText ==> n.chars == ""
    ensures Update(AggState(Sentinel, {}), sel) == AggState(Sentinel, TextIds(sel))
  {
    FreshTextsOfEmptyLayers(sel, {});
    UpdateAppendsFreshTexts(AggState(Sentinel, {}), sel);
    ProcessedIsSelectedTextIds(AggState(Sentinel, {}), sel);
  }

  /** The text layers of a two-layer selection. */
  lemma TwoTextNodes(a: Node, b: Node)
    requires a.isText && b.isText
    ensures TextNodes([a, b]) == [a, b] && TextIds([a, b]) == {a.id, b.id}
    ensures TextNodes([b]) == [b] && TextIds([b]) == {b.id}
  {
    assert [a, b][..1] == [a];
    assert [a][..0] == [];
    assert [b][..0] == [];
    IdsOfSnoc([], a);
    IdsOfSnoc([a], b);
    IdsOfSnoc([], b);
  }

  /** Narrowing the selection to a layer that was already processed keeps
      the text and forgets the other ids. */
  lemma NarrowToProcessed(s: AggState, b: Node)
    requires b.isText && b.id in s.processed
    ensures Update(s, [b]) == AggState(s.text, {b.id})
  {
    TwoTextNodes(b, b);
    HasTextNodesIffTextNodes([b]);
    ProcessedIsSelectedTextIds(s, [b]);
    UpdateAppendsFreshTexts(s, [b]);
    assert [b][..0] == [];
    assert FreshTexts([b], s.processed) == [];
  }

  /** Selecting a layer again beside one that stayed selected contributes the
      returning layer's text only. */
  lemma WidenWithReturning(s: AggState, a: Node, b: Node)
    requires a.isText && b.isText && a.id != b.id
    requires s.processed == {b.id}
    ensures Update(s, [a, b]) == AggState(Merge(s.text, a.chars), {a.id, b.id})
  {
    TwoTextNodes(a, b);
    HasTextNodesIffTextNodes([a, b]);
    assert IdsIdentify([a, b]);
    ProcessedIsSelectedTextIds(s, [a, b]);
    UpdateAppendsFreshTexts(s, [a, b]);
    assert [a, b][..1] == [a];
    assert [a][..0] == [];
    assert a.id !in s.processed;
    assert FreshTexts([a], s.processed) == if a.chars != "" then [a.chars] else [];
    assert FreshTexts([a, b], s.processed) == if a.chars != "" then [a.chars] else [];
  }

  /** A text layer that was left out of one selection and is selected again
      contributes its text again; one that stayed selected does not. */
  lemma DeselectedNodeContributesAgain(s: AggState, a: Node, b: Node)
    requires a.isText && b.isText && a.id != b.id
    ensures var s1 := Update(s, [a, b]);
            var s2 := Update(s1, [b]);
            var s3 := Update(s2, [a, b]);
            && s2.text == s1.text
            && s3.text == Merge(s1.text, a.chars)
            && s3.processed == {a.id, b.id}
  {
    var s1 := Update(s, [a, b]);
    TwoTextNodes(a, b);
    HasTextNodesIffTextNodes([a, b]);
    ProcessedIsSelectedTextIds(s, [a, b]);
    NarrowToProcessed(s1, b);
    WidenWithReturning(Update(s1, [b]), a, b);
  }

  /** Two new text layers selected from the start state give their texts
      joined by a double line break, in selection order. */
  lemma TwoNewLayers(h: Node, w: Node)
    requires h.isText && w.isText && h.id != w.id
    requires h.chars != "" && w.chars != ""
    ensures Update(AggState("", {}), [h, w]) == AggState(h.chars + "\n\n" + w.chars, {h.id, w.id})
    ensures |TextNodes([h, w])| == 2
  {
    var sel := [h, w];
    var s0 := AggState("", {});
    TwoTextNodes(h, w);
    assert Update(s0, sel) == Absorb(s0, sel, TextNodes(sel)) by {
      assert s0.processed * TextIds(sel) == {};
    }
    assert FreshTexts(sel, {}) == [h.chars, w.chars] by {
      assert sel[..1] == [h];
      assert [h][..0] == [];
      assert FreshTexts([h], {}) == [h.chars];
    }
    assert Join([h.chars, w.chars]) == h.chars + "\n\n" + w.chars by {
      assert [h.chars, w.chars][..1] == [h.chars];
    }
    assert IdsIdentify(sel);
    AbsorbText(s0, sel);
    AbsorbMarksSelected(s0, sel);
  }

  /** The plugin's own state holder. */
  class TextAggregator {
    var currentText: string
    var processed: set<Id>

    function State(): AggState
      reads this
    {
      AggState(currentText, processed)
    }

    /** The state when the plugin starts. */
    constructor ()
      ensures State() == AggState("", {})
    {
      currentText := "";
      processed := {};
    }

    /** Appends the text of the newly selected text layers, in the order of
        `selection`, reading each layer's text from `nodes`. */
    method GetTextFromNodes(selection: seq<Node>, nodes: seq<Node>) returns (text: string)
      modifies this
      ensures State() == Absorb(old(State()), selection, nodes)
      ensures text == currentText
    {
      var nodeTextMap := BuildTextMap(nodes);
      // The filter runs to completion before the first `add`.
      var recent := NewNodes(selection, processed);
      var texts := MarkNew(recent, nodeTextMap);
      var newText := Join(NonEmpty(texts));
      if currentText != "" && currentText != Sentinel && newText != "" {
        currentText := currentText + Separator + newText;
      } else if newText != "" {
        currentText := newText;
      }
      text := currentText;
    }

    /** The `forEach` that fills the id-to-text map. */
    static method BuildTextMap(nodes: seq<Node>) returns (nodeTextMap: map<Id, string>)
      ensures nodeTextMap == TextMap(nodes)
    {
      nodeTextMap := map[];
      var i := 0;
      while i < |nodes|
        invariant 0 <= i <= |nodes|
        invariant nodeTextMap == TextMap(nodes[..i])
      {
        assert nodes[..i + 1][..i] == nodes[..i];
        nodeTextMap := nodeTextMap[nodes[i].id := GetTextFromNode(nodes[i])];
        i := i + 1;
      }
      assert nodes[..|nodes|] == nodes;
    }

    /** The `map` over the new nodes: each id is marked processed and its
        text looked up. */
    method MarkNew(recent: seq<Node>, nodeTextMap: map<Id, string>) returns (texts: seq<string>)
      modifies this
      ensures processed == old(processed) + IdsOf(recent)
      ensures currentText == old(currentText)
      ensures texts == Lookups(recent, nodeTextMap)
    {
      texts := [];
      var j := 0;
      while j < |recent|
        invariant 0 <= j <= |recent|
        invariant processed == old(processed) + IdsOf(recent[..j])
        invariant texts == Lookups(recent[..j], nodeTextMap)
        invariant currentText == old(currentText)
      {
        assert recent[..j + 1] == recent[..j] + [recent[j]];
        IdsOfSnoc(recent[..j], recent[j]);
        LookupsSnoc(recent[..j], recent[j], nodeTextMap);
        processed := processed + {recent[j].id};
        texts := texts + [Lookup(nodeTextMap, recent[j].id)];
        j := j + 1;
      }
      assert recent[..|recent|] == recent;
    }

    /** Reacts to a selection change and returns the report posted to the UI. */
    method UpdateSelectedText(selection: seq<Node>) returns (report: Report)
      modifies this
      ensures State() == Update(old(State()), selection)
      ensures report == SelectedText(currentText, |TextNodes(selection)|)
      ensures !HasTextNodes(selection) ==> report == SelectedText(Sentinel, 0) && processed == {}
      ensures HasTextNodes(selection) ==> processed == TextIds(selection)
    {
      var textNodes := TextNodes(selection);
      if |textNodes| == 0 {
        currentText := Sentinel;
        processed := {};
        report := SelectedText(currentText, 0);
        HasTextNodesIffTextNodes(selection);
        return;
      }
      var selectedIds := IdsOf(textNodes);
      ghost var was := processed;
      var pending := processed;
      while pending != {}
        invariant pending <= was
        invariant processed == (was - pending) * selectedIds + pending
        invariant currentText == old(currentText)
        decreases pending
      {
        var nodeId :| nodeId in pending;
        if nodeId !in selectedIds {
          processed := processed - {nodeId};
        }
        pending := pending - {nodeId};
      }
      assert processed == was * selectedIds;
      var text := GetTextFromNodes(selection, textNodes);
      report := SelectedText(text, |textNodes|);
      HasTextNodesIffTextNodes(selection);
      ProcessedIsSelectedTextIds(old(State()), selection);
    }
  }
}
