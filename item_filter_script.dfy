/** The item filter script document (Filtration.ObjectModel/ItemFilterScript.cs):
    an ordered list of blocks, each a rule block holding block items or a section marker,
    the group list, validation, and the colour-replacement batch rewrite. */
module ObjectModel {
  import opened Collections

  newtype Byte = x: int | 0 <= x < 256

  /** A colour by its four 8-bit channels: alpha, red, green, blue. */
  datatype Color = Argb(a: Byte, r: Byte, g: Byte, b: Byte)

  /** The three colour-bearing block item types the replacement works on. */
  datatype ColorKind = TextColor | BackgroundColor | BorderColor

  /** One directive of a rule block: a colour action of one of the three kinds,
      or any other condition or action, which the colour logic never looks into. */
  datatype BlockItem =
    | ColorItem(kind: ColorKind, color: Color)
    | OtherItem(directive: string)

  predicate IsOfKind(item: BlockItem, k: ColorKind) {
    item.ColorItem? && item.kind == k
  }

  /** What a block holds: a rule block (`ItemFilterBlock`) has its block items,
      a section marker (`ItemFilterSection`) only its description. */
  datatype BlockBody =
    | RuleBlock(items: seq<BlockItem>)
    | SectionBlock(description: string)

  /** A block is an entity: the script and the view models refer to it by reference,
      and the colour replacement rewrites its contents in place. */
  class Block {
    var body: BlockBody

    constructor (body: BlockBody)
      ensures this.body == body
    {
      this.body := body;
    }
  }

  /** A node of the group tree; the root is "Root" with no parent. */
  datatype BlockGroup = BlockGroup(name: string, parent: Option<BlockGroup>)

  /** One line of the replacement request: whether this kind is replaced, from which colour, to which. */
  datatype Replacement = Replacement(enabled: bool, oldColor: Color, newColor: Color)

  /** `ReplaceColorsParameterSet`: an independent request per colour kind. */
  datatype ReplaceColorsParameterSet = ReplaceColorsParameterSet(text: Replacement, background: Replacement, border: Replacement)
  {
    function For(k: ColorKind): Replacement {
      match k
      case TextColor => text
      case BackgroundColor => background
      case BorderColor => border
    }
  }

  const NoBlocksMessage := "A script must have at least one block"

  /** Position of the first item of kind `k` (`BlockItems.OfType<...>().First()`), if there is one. */
  function FirstIndexOf(items: seq<BlockItem>, k: ColorKind): (r: Option<nat>)
    ensures r.Some? ==> r.value < |items| && IsOfKind(items[r.value], k)
    ensures r.Some? ==> forall j :: 0 <= j < r.value ==> !IsOfKind(items[j], k)
    ensures r.None? <==> forall j :: 0 <= j < |items| ==> !IsOfKind(items[j], k)
  {
    if |items| == 0 then None
    else if IsOfKind(items[0], k) then Some(0)
    else
      match FirstIndexOf(items[1..], k)
      case None => None
      case Some(i) => Some(i + 1)
  }

  /** The colour of the first item of kind `k`, or None when the block has no such item. */
  function FirstColor(items: seq<BlockItem>, k: ColorKind): Option<Color> {
    match FirstIndexOf(items, k)
    case None => None
    case Some(i) => Some(items[i].color)
  }

  /** `BlockIsColorReplacementCandidate`, in the order the source checks it: first that every
      enabled kind has an item, then that each such first item carries the old colour. */
  predicate IsCandidate(p: ReplaceColorsParameterSet, items: seq<BlockItem>)
    ensures IsCandidate(p, items) ==>
      forall k: ColorKind :: p.For(k).enabled ==> FirstColor(items, k) == Some(p.For(k).oldColor)
  {
    var text := FirstColor(items, TextColor);
    var background := FirstColor(items, BackgroundColor);
    var border := FirstColor(items, BorderColor);
    if (text.None? && p.text.enabled) ||
       (background.None? && p.background.enabled) ||
       (border.None? && p.border.enabled)
    then false
    else if (p.text.enabled && text.value != p.text.oldColor) ||
            (p.background.enabled && background.value != p.background.oldColor) ||
            (p.border.enabled && border.value != p.border.oldColor)
    then false
    else true
  }

  /** Whether position `j` holds the first item of a kind whose replacement is enabled. */
  predicate IsTarget(p: ReplaceColorsParameterSet, items: seq<BlockItem>, j: nat)
    requires j < |items|
  {
    items[j].ColorItem? && p.For(items[j].kind).enabled && FirstIndexOf(items, items[j].kind) == Some(j)
  }

  /** Reference definition of a recoloured candidate: each target item gets its kind's new colour,
      every other item is left as it was. */
  function Recolored(p: ReplaceColorsParameterSet, items: seq<BlockItem>): seq<BlockItem> {
    seq(|items|, j requires 0 <= j < |items| =>
      if IsTarget(p, items, j) then ColorItem(items[j].kind, p.For(items[j].kind).newColor) else items[j])
  }

  /** What `ReplaceColors` makes of one block, from that block's own contents alone. */
  function Replaced(p: ReplaceColorsParameterSet, body: BlockBody): BlockBody {
    match body
    case SectionBlock(_) => body
    case RuleBlock(items) => if IsCandidate(p, items) then RuleBlock(Recolored(p, items)) else body
  }

  /** Candidacy, kind by kind: a block qualifies exactly when every enabled kind has an item
      and the first such item carries that kind's old colour; disabled kinds are not consulted. */
  lemma CandidateIff(p: ReplaceColorsParameterSet, items: seq<BlockItem>)
    ensures IsCandidate(p, items) <==>
      forall k: ColorKind :: p.For(k).enabled ==> FirstColor(items, k) == Some(p.For(k).oldColor)
  {
    if !IsCandidate(p, items) {
      var k :| k in {TextColor, BackgroundColor, BorderColor} &&
               p.For(k).enabled && FirstColor(items, k) != Some(p.For(k).oldColor);
    } else {
      forall k: ColorKind | p.For(k).enabled ensures FirstColor(items, k) == Some(p.For(k).oldColor) {
        match k
        case TextColor =>
        case BackgroundColor =>
        case BorderColor =>
      }
    }
  }

  /** A block missing an item of an enabled kind is never a candidate. */
  lemma CandidateNeedsPresence(p: ReplaceColorsParameterSet, items: seq<BlockItem>, k: ColorKind)
    requires p.For(k).enabled
    requires forall j :: 0 <= j < |items| ==> !IsOfKind(items[j], k)
    ensures !IsCandidate(p, items)
  {
    CandidateIff(p, items);
  }

  /** A block whose first item of an enabled kind has any colour but the old one is never a candidate. */
  lemma CandidateNeedsMatch(p: ReplaceColorsParameterSet, items: seq<BlockItem>, k: ColorKind, j: nat)
    requires p.For(k).enabled
    requires FirstIndexOf(items, k) == Some(j) && items[j].color != p.For(k).oldColor
    ensures !IsCandidate(p, items)
  {
    CandidateIff(p, items);
  }

  /** Disabled kinds are never checked: two item lists whose first items agree on every enabled
      kind are candidates alike, whatever they hold for the disabled kinds. */
  lemma CandidateIgnoresDisabledKinds(p: ReplaceColorsParameterSet, a: seq<BlockItem>, b: seq<BlockItem>)
    requires forall k: ColorKind :: p.For(k).enabled ==> FirstColor(a, k) == FirstColor(b, k)
    ensures IsCandidate(p, a) == IsCandidate(p, b)
  {
    CandidateIff(p, a);
    CandidateIff(p, b);
  }

  /** The all-or-nothing case worked through: with text (red to green) and border (blue to white)
      both enabled, a block with a red text colour and no border colour is left alone, while a block
      with both gets both new colours and keeps its other items. */
  lemma AllOrNothingExample()
    ensures var red, green, blue, white := Argb(255, 255, 0, 0), Argb(255, 0, 128, 0), Argb(255, 0, 0, 255), Argb(255, 255, 255, 255);
      var p := ReplaceColorsParameterSet(Replacement(true, red, green), Replacement(false, red, red), Replacement(true, blue, white));
      var noBorder := RuleBlock([OtherItem("Class Currency"), ColorItem(TextColor, red)]);
      var both := RuleBlock([ColorItem(BorderColor, blue), OtherItem("Class Currency"), ColorItem(TextColor, red)]);
      Replaced(p, noBorder) == noBorder &&
      Replaced(p, both) == RuleBlock([ColorItem(BorderColor, white), OtherItem("Class Currency"), ColorItem(TextColor, green)])
  {
    var red, green, blue, white := Argb(255, 255, 0, 0), Argb(255, 0, 128, 0), Argb(255, 0, 0, 255), Argb(255, 255, 255, 255);
    var p := ReplaceColorsParameterSet(Replacement(true, red, green), Replacement(false, red, red), Replacement(true, blue, white));
    var noBorderItems := [OtherItem("Class Currency"), ColorItem(TextColor, red)];
    assert FirstIndexOf(noBorderItems, BorderColor).None?;
    var items := [ColorItem(BorderColor, blue), OtherItem("Class Currency"), ColorItem(TextColor, red)];
    assert FirstIndexOf(items, BorderColor) == Some(0);
    assert FirstIndexOf(items, TextColor) == Some(2);
    assert FirstIndexOf(items, BackgroundColor).None?;
    assert IsCandidate(p, items);
    var expected := [ColorItem(BorderColor, white), OtherItem("Class Currency"), ColorItem(TextColor, green)];
    assert Recolored(p, items) == expected by {
      assert IsTarget(p, items, 0) && !IsTarget(p, items, 1) && IsTarget(p, items, 2);
    }
  }

  /** Only the item kinds matter to where the first item of a kind is, never the colours. */
  lemma {:induction false} FirstIndexOfKindsOnly(a: seq<BlockItem>, b: seq<BlockItem>, k: ColorKind)
    requires |a| == |b|
    requires forall j :: 0 <= j < |a| ==> (IsOfKind(a[j], k) <==> IsOfKind(b[j], k))
    ensures FirstIndexOf(a, k) == FirstIndexOf(b, k)
  {
    if |a| > 0 && !IsOfKind(a[0], k) {
      FirstIndexOfKindsOnly(a[1..], b[1..], k);
    }
  }

  /** Recolouring changes colours only: same length, and every item keeps its kind. */
  lemma RecoloredKeepsKinds(p: ReplaceColorsParameterSet, items: seq<BlockItem>)
    ensures |Recolored(p, items)| == |items|
    ensures forall j :: 0 <= j < |items| ==>
      (items[j].ColorItem? <==> Recolored(p, items)[j].ColorItem?) &&
      (items[j].ColorItem? ==> Recolored(p, items)[j].kind == items[j].kind)
    ensures forall k: ColorKind :: FirstIndexOf(Recolored(p, items), k) == FirstIndexOf(items, k)
  {
    var r := Recolored(p, items);
    forall k: ColorKind ensures FirstIndexOf(r, k) == FirstIndexOf(items, k) {
      FirstIndexOfKindsOnly(r, items, k);
    }
  }

  /** The replacement never adds, removes or retypes anything: a section stays as it is,
      a rule block keeps its number of items and the kind of each one. */
  lemma ReplacedKeepsShape(p: ReplaceColorsParameterSet, body: BlockBody)
    ensures body.SectionBlock? ==> Replaced(p, body) == body
    ensures body.RuleBlock? ==> Replaced(p, body).RuleBlock?
    ensures body.RuleBlock? ==> |Replaced(p, body).items| == |body.items|
    ensures body.RuleBlock? ==> forall j, k: ColorKind :: 0 <= j < |body.items| ==>
      (IsOfKind(body.items[j], k) <==> IsOfKind(Replaced(p, body).items[j], k))
  {
    if body.RuleBlock? {
      RecoloredKeepsKinds(p, body.items);
    }
  }

  /** A candidate ends up with the new colour on the first item of every enabled kind,
      while the first item of every disabled kind keeps its colour. */
  lemma ReplacedCandidate(p: ReplaceColorsParameterSet, items: seq<BlockItem>, k: ColorKind)
    requires IsCandidate(p, items)
    ensures Replaced(p, RuleBlock(items)).RuleBlock?
    ensures p.For(k).enabled ==> FirstColor(Replaced(p, RuleBlock(items)).items, k) == Some(p.For(k).newColor)
    ensures !p.For(k).enabled ==> FirstColor(Replaced(p, RuleBlock(items)).items, k) == FirstColor(items, k)
  {
    RecoloredKeepsKinds(p, items);
  }

  /** No partial update: a rule block that fails candidacy on even one enabled kind keeps every item. */
  lemma ReplacedNonCandidate(p: ReplaceColorsParameterSet, items: seq<BlockItem>, k: ColorKind)
    requires p.For(k).enabled && FirstColor(items, k) != Some(p.For(k).oldColor)
    ensures Replaced(p, RuleBlock(items)) == RuleBlock(items)
  {
    CandidateIff(p, items);
  }

  /** Running the replacement over a block a second time changes nothing more: a block that the
      list holds twice ends up as if it had been visited once. */
  lemma ReplacedIdempotent(p: ReplaceColorsParameterSet, body: BlockBody)
    ensures Replaced(p, Replaced(p, body)) == Replaced(p, body)
  {
    if body.RuleBlock? && IsCandidate(p, body.items) {
      var items := body.items;
      var r := Recolored(p, items);
      RecoloredKeepsKinds(p, items);
      if IsCandidate(p, r) {
        var rr := Recolored(p, r);
        assert |rr| == |r|;
        forall j | 0 <= j < |r| ensures rr[j] == r[j] {
          if IsTarget(p, r, j) {
            assert IsTarget(p, items, j);
          }
        }
      }
    }
  }

  /** Replacing the first item of kind `k` by one with colour `c`; the whole list otherwise stays. */
  method SetFirstColor(items: seq<BlockItem>, k: ColorKind, c: Color) returns (r: seq<BlockItem>)
    requires FirstIndexOf(items, k).Some?
    ensures |r| == |items|
    ensures forall j :: 0 <= j < |items| ==>
      r[j] == if FirstIndexOf(items, k) == Some(j) then ColorItem(k, c) else items[j]
    ensures forall k': ColorKind :: FirstIndexOf(r, k') == FirstIndexOf(items, k')
  {
    var i := FirstIndexOf(items, k).value;
    r := items[i := ColorItem(k, c)];
    forall k': ColorKind ensures FirstIndexOf(r, k') == FirstIndexOf(items, k') {
      FirstIndexOfKindsOnly(r, items, k');
    }
  }

  /** The three `if` blocks of `ReplaceColors` applied to one candidate, kind after kind. */
  method RecolorItems(p: ReplaceColorsParameterSet, items: seq<BlockItem>) returns (r: seq<BlockItem>)
    requires IsCandidate(p, items)
    ensures r == Recolored(p, items)
  {
    CandidateIff(p, items);
    var r1, r2 := items, items;
    r := items;
    if p.text.enabled {
      r := SetFirstColor(r, TextColor, p.text.newColor);
    }
    r1 := r;
    if p.background.enabled {
      r := SetFirstColor(r, BackgroundColor, p.background.newColor);
    }
    r2 := r;
    if p.border.enabled {
      r := SetFirstColor(r, BorderColor, p.border.newColor);
    }
    forall j | 0 <= j < |items| ensures r[j] == Recolored(p, items)[j] {
      var first := (k: ColorKind) => FirstIndexOf(items, k) == Some(j);
      assert r1[j] == if p.text.enabled && first(TextColor) then ColorItem(TextColor, p.text.newColor) else items[j];
      assert r2[j] == if p.background.enabled && first(BackgroundColor) then ColorItem(BackgroundColor, p.background.newColor) else r1[j];
      assert r[j] == if p.border.enabled && first(BorderColor) then ColorItem(BorderColor, p.border.newColor) else r2[j];
    }
  }

  /** The script document. */
  class Script {
    var blocks: seq<Block>
    var groups: seq<BlockGroup>
    var filePath: Option<string>
    var description: string

    /** A new script has no blocks and the one root group. */
    constructor ()
      ensures blocks == [] && groups == [BlockGroup("Root", None)]
      ensures filePath == None
    {
      blocks := [];
      groups := [BlockGroup("Root", None)];
      filePath := None;
      description := "";
    }

    /** `Validate`: the one rule, that a script has at least one block. */
    method Validate() returns (errors: seq<string>)
      ensures errors == [] <==> |blocks| > 0
      ensures errors != [] ==> errors == [NoBlocksMessage]
    {
      errors := [];
      if |blocks| == 0 {
        errors := errors + [NoBlocksMessage];
      }
    }

    /** `ReplaceColors`: each block in the list, section or rule, ends up as `Replaced` makes it
        from its own contents before the call; the list itself is untouched. */
    method ReplaceColors(p: ReplaceColorsParameterSet)
      modifies blocks
      ensures forall b :: b in blocks ==> b.body == Replaced(p, old(b.body))
    {
      for i := 0 to |blocks|
        invariant forall b :: b in blocks[..i] ==> b.body == Replaced(p, old(b.body))
        invariant forall b :: b in blocks && b !in blocks[..i] ==> b.body == old(b.body)
      {
        var b := blocks[i];
        ghost var before := b.body;
        if b.body.RuleBlock? && IsCandidate(p, b.body.items) {
          var items := RecolorItems(p, b.body.items);
          b.body := RuleBlock(items);
        }
        if b in blocks[..i] {
          ReplacedIdempotent(p, old(b.body));
        }
        assert blocks[..i + 1] == blocks[..i] + [b];
      }
      assert blocks[..|blocks|] == blocks;
    }
  }
}
