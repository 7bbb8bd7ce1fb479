/** The script editor's view model (Filtration/ViewModels/ItemFilterScriptViewModel.cs):
    it keeps the script's block list and its own list of block view models in step through
    moves, inserts, paste and delete, and tracks whether the script has unsaved changes.
    Dialog answers, the clipboard text, the block translator and the outcome of a save
    are parameters. */
module ViewModels {
  import opened Collections
  import opened ObjectModel

  const NewSectionDescription := "New Section"

  /** What `new ItemFilterBlock()` holds: a rule block with no items. The block's own
      constructor is not part of this model, so this default is taken as given. */
  const NewRuleBlockBody := RuleBlock([])

  /** The editor of one block: it points at its block for its whole life. */
  class BlockViewModel {
    const block: Block
    var isDirty: bool

    constructor (block: Block)
      ensures this.block == block && !isDirty
    {
      this.block := block;
      isDirty := false;
    }
  }

  predicate IsSection(vm: BlockViewModel)
    reads vm.block
  {
    vm.block.body.SectionBlock?
  }

  /** `ItemFilterSectionViewModels`: the view models of section blocks, in list order. */
  function SectionViewModels(vms: seq<BlockViewModel>): (r: seq<BlockViewModel>)
    reads set vm | vm in vms :: vm.block
    ensures |r| <= |vms|
    ensures forall vm :: vm in r ==> vm in vms && IsSection(vm)
    ensures forall vm :: vm in vms && IsSection(vm) ==> vm in r
  {
    if |vms| == 0 then []
    else (if IsSection(vms[0]) then [vms[0]] else []) + SectionViewModels(vms[1..])
  }

  /** The sections view is computed piece by piece: it keeps the order of the list it is taken from. */
  lemma {:induction false} SectionViewModelsConcat(a: seq<BlockViewModel>, b: seq<BlockViewModel>)
    ensures SectionViewModels(a + b) == SectionViewModels(a) + SectionViewModels(b)
  {
    if |a| == 0 {
      assert a + b == b;
    } else {
      assert (a + b)[1..] == a[1..] + b;
      SectionViewModelsConcat(a[1..], b);
    }
  }

  /** The i-th view model edits the i-th block. */
  predicate Parallel(blocks: seq<Block>, vms: seq<BlockViewModel>) {
    |blocks| == |vms| && forall i :: 0 <= i < |vms| ==> blocks[i] == vms[i].block
  }

  /** Moving the same position in both lists keeps them in step. */
  lemma ParallelMove(blocks: seq<Block>, vms: seq<BlockViewModel>, from: nat, to: nat)
    requires Parallel(blocks, vms) && from < |vms| && to < |vms|
    ensures Parallel(Move(blocks, from, to), Move(vms, from, to))
  {
    var b, v := RemoveAt(blocks, from), RemoveAt(vms, from);
    assert Parallel(b, v);
    ParallelInsert(b, v, to, vms[from]);
  }

  /** Inserting a view model and its block at the same position keeps the lists in step. */
  lemma ParallelInsert(blocks: seq<Block>, vms: seq<BlockViewModel>, k: nat, vm: BlockViewModel)
    requires Parallel(blocks, vms) && k <= |vms|
    ensures Parallel(InsertAt(blocks, k, vm.block), InsertAt(vms, k, vm))
  {
  }

  /** Taking the element at `i` out by value and putting it first, in a list without repetitions,
      does to the block list what `Move(i, 0)` does to the view-model list. */
  lemma ToFront(blocks: seq<Block>, vms: seq<BlockViewModel>, i: nat)
    requires Parallel(blocks, vms) && Distinct(blocks) && 0 < i < |vms|
    ensures vms[i].block == blocks[i] && IndexOf(vms, vms[i]) == i
    ensures var nb, nv := InsertAt(Remove(blocks, blocks[i]), 0, blocks[i]), Move(vms, i, 0);
      Parallel(nb, nv) && Distinct(nb) &&
      nv[0] == vms[i] && RemoveAt(nv, 0) == RemoveAt(vms, i) &&
      nb[0] == blocks[i] && RemoveAt(nb, 0) == RemoveAt(blocks, i)
  {
    ParallelDistinct(blocks, vms);
    IndexOfDistinct(vms, i);
    RemoveDistinct(blocks, i);
    MoveDistinct(blocks, i, 0);
    ParallelMove(blocks, vms, i, 0);
    RemoveInserted(RemoveAt(vms, i), 0, vms[i]);
    RemoveInserted(RemoveAt(blocks, i), 0, blocks[i]);
  }

  /** Taking the element at `i` out by value and appending it, in a list without repetitions,
      does to the block list what `Move(i, last)` does to the view-model list. */
  lemma ToBack(blocks: seq<Block>, vms: seq<BlockViewModel>, i: nat)
    requires Parallel(blocks, vms) && Distinct(blocks) && i < |vms| - 1
    ensures vms[i].block == blocks[i] && IndexOf(vms, vms[i]) == i
    ensures var last := |vms| - 1;
      var nb, nv := Remove(blocks, blocks[i]) + [blocks[i]], Move(vms, i, last);
      Parallel(nb, nv) && Distinct(nb) &&
      nv[last] == vms[i] && RemoveAt(nv, last) == RemoveAt(vms, i) &&
      nb[last] == blocks[i] && RemoveAt(nb, last) == RemoveAt(blocks, i)
  {
    var last := |vms| - 1;
    ParallelDistinct(blocks, vms);
    IndexOfDistinct(vms, i);
    RemoveDistinct(blocks, i);
    MoveDistinct(blocks, i, last);
    ParallelMove(blocks, vms, i, last);
    RemoveInserted(RemoveAt(vms, i), last, vms[i]);
    RemoveInserted(RemoveAt(blocks, i), last, blocks[i]);
    assert RemoveAt(blocks, i) + [blocks[i]] == InsertAt(RemoveAt(blocks, i), last, blocks[i]);
  }

  /** Swapping the element at `i` with its neighbour `j`, located by value in the block list and by
      position in the view-model list, keeps the two lists in step. */
  lemma SwapAdjacent(blocks: seq<Block>, vms: seq<BlockViewModel>, i: nat, j: nat)
    requires Parallel(blocks, vms) && Distinct(blocks) && i < |vms| && j < |vms|
    requires j == i - 1 || j == i + 1
    ensures vms[i].block == blocks[i] && IndexOf(vms, vms[i]) == i && IndexOf(blocks, blocks[i]) == i
    ensures var nb, nv := InsertAt(RemoveAt(blocks, i), j, blocks[i]), Move(vms, i, j);
      Parallel(nb, nv) && Distinct(nb) &&
      nv == vms[j := vms[i]][i := vms[j]] && nb == blocks[j := blocks[i]][i := blocks[j]]
  {
    ParallelDistinct(blocks, vms);
    IndexOfDistinct(vms, i);
    IndexOfDistinct(blocks, i);
    MoveDistinct(blocks, i, j);
    ParallelMove(blocks, vms, i, j);
    MoveAdjacent(blocks, i, j);
    MoveAdjacent(vms, i, j);
  }

  /** Parallel lists: no repeated block means no repeated view model. */
  lemma ParallelDistinct(blocks: seq<Block>, vms: seq<BlockViewModel>)
    requires Parallel(blocks, vms) && Distinct(blocks)
    ensures Distinct(vms)
  {
    forall a, b | 0 <= a < b < |vms| ensures vms[a] != vms[b] {
      assert blocks[a] != blocks[b];
    }
  }

  class ScriptViewModel {
    var script: Script
    var vms: seq<BlockViewModel>     // ItemFilterBlockViewModels
    var dirty: bool                  // _isDirty
    var selected: BlockViewModel?    // SelectedBlockViewModel

    /** The two lists run in parallel: same length, the i-th view model edits the i-th block,
        and no block is listed twice. */
    ghost predicate Valid()
      reads this, script
    {
      Parallel(script.blocks, vms) && Distinct(script.blocks)
    }

    /** `HasDirtyChildren`. */
    predicate HasDirtyChildren()
      reads this, set vm | vm in vms
    {
      exists i :: 0 <= i < |vms| && vms[i].isDirty
    }

    /** `IsDirty`: the view model's own flag or any block view model's. */
    predicate IsDirty()
      reads this, set vm | vm in vms
    {
      dirty || HasDirtyChildren()
    }

    /** The script reads as saved exactly when neither its own flag nor any block view model's
        flag is set, so one dirty block makes the whole script dirty. */
    lemma IsDirtyIff()
      ensures !IsDirty() <==> !dirty && forall vm :: vm in vms ==> !vm.isDirty
      ensures forall i :: 0 <= i < |vms| && vms[i].isDirty ==> IsDirty()
    {
    }

    /** The view model built for `s` (the constructor followed by `Initialise`). */
    constructor (s: Script)
      requires Distinct(s.blocks)
      ensures Valid() && script == s
      ensures forall i :: 0 <= i < |vms| ==> fresh(vms[i]) && !vms[i].isDirty
      ensures !dirty && selected == null
    {
      script := s;
      vms := [];
      dirty := false;
      selected := null;
      new;
      Initialise(s);
    }

    /** `Initialise`: one fresh view model per block of `s`, in the script's order. */
    method Initialise(s: Script)
      requires Distinct(s.blocks)
      modifies this
      ensures Valid() && script == s
      ensures forall i :: 0 <= i < |vms| ==> fresh(vms[i]) && !vms[i].isDirty
      ensures dirty == old(dirty) && selected == old(selected)
    {
      vms := [];
      script := s;
      for i := 0 to |s.blocks|
        invariant script == s && |vms| == i && dirty == old(dirty) && selected == old(selected)
        invariant forall j :: 0 <= j < i ==> vms[j].block == s.blocks[j] && fresh(vms[j]) && !vms[j].isDirty
      {
        var vm := new BlockViewModel(s.blocks[i]);
        vms := vms + [vm];
      }
    }

    /** A view model's position in its list is its block's position in the script. */
    lemma ParallelIndex(target: BlockViewModel)
      requires Valid() && target in vms
      ensures IndexOf(script.blocks, target.block) == IndexOf(vms, target)
      ensures Distinct(vms)
    {
      var i := IndexOf(vms, target);
      IndexOfDistinct(script.blocks, i);
      forall a, b | 0 <= a < b < |vms| ensures vms[a] != vms[b] {
        assert script.blocks[a] != script.blocks[b];
      }
    }

    /** `Description` setter. */
    method SetDescription(d: string)
      modifies script`description, this
      ensures script == old(script) && script.description == d && dirty
      ensures script.blocks == old(script.blocks) && vms == old(vms) && selected == old(selected)
      ensures script.filePath == old(script.filePath)
    {
      script.description := d;
      dirty := true;
    }

    /** `CleanChildren`: every block view model is marked clean. */
    method CleanChildren()
      modifies set vm | vm in vms
      ensures forall i :: 0 <= i < |vms| ==> !vms[i].isDirty
    {
      for i := 0 to |vms|
        invariant forall j :: 0 <= j < i ==> !vms[j].isDirty
      {
        vms[i].isDirty := false;
      }
    }

    /** `RemoveDirtyFlag`: afterwards the script reads as saved. */
    method RemoveDirtyFlag()
      modifies this, set vm | vm in vms
      ensures !IsDirty()
      ensures vms == old(vms) && script == old(script) && selected == old(selected)
    {
      CleanChildren();
      dirty := false;
    }

    /** `SaveScriptAs`, with the dialog's answer (`accepted`, `chosenPath`) and the outcome of the
        persistence service (`saved`) as inputs. A script that fails validation, or a cancelled
        dialog, changes nothing; a failed save puts the previous file path back. */
    method SaveScriptAs(accepted: bool, chosenPath: string, saved: bool)
      modifies this, script`filePath, set vm | vm in vms
      ensures script == old(script) && vms == old(vms) && selected == old(selected)
      ensures script.blocks == old(script.blocks)
      ensures old(|script.blocks|) > 0 && accepted && saved ==>
        script.filePath == Some(chosenPath) && !IsDirty()
      ensures !(old(|script.blocks|) > 0 && accepted && saved) ==>
        script.filePath == old(script.filePath) && dirty == old(dirty) &&
        forall i :: 0 <= i < |vms| ==> vms[i].isDirty == old(vms[i].isDirty)
    {
      var errors := script.Validate();
      if errors != [] {
        return;
      }
      if !accepted {
        return;
      }
      var previousFilePath := script.filePath;
      script.filePath := Some(chosenPath);
      if saved {
        RemoveDirtyFlag();
      } else {
        script.filePath := previousFilePath;
      }
    }

    /** `SaveScript`: with a file path, save in place; without one, ask for one as `SaveScriptAs` does. */
    method SaveScript(accepted: bool, chosenPath: string, saved: bool)
      modifies this, script`filePath, set vm | vm in vms
      ensures script == old(script) && vms == old(vms) && selected == old(selected)
      ensures script.blocks == old(script.blocks)
      ensures old(|script.blocks|) > 0 && saved && old(script.filePath).Some? && old(script.filePath).value != "" ==>
        script.filePath == old(script.filePath) && !IsDirty()
      ensures old(|script.blocks|) > 0 && saved && accepted && (old(script.filePath).None? || old(script.filePath).value == "") ==>
        script.filePath == Some(chosenPath) && !IsDirty()
      ensures old(|script.blocks|) == 0 || !saved || (!accepted && (old(script.filePath).None? || old(script.filePath).value == "")) ==>
        script.filePath == old(script.filePath) && dirty == old(dirty) &&
        forall i :: 0 <= i < |vms| ==> vms[i].isDirty == old(vms[i].isDirty)
    {
      var errors := script.Validate();
      if errors != [] {
        return;
      }
      if script.filePath.None? || script.filePath.value == "" {
        SaveScriptAs(accepted, chosenPath, saved);
        return;
      }
      if saved {
        RemoveDirtyFlag();
      }
    }

    /** `MoveBlockToTop`: the target goes to the front of both lists, the others keep their order;
        a target already at the front changes nothing. */
    method MoveBlockToTop(target: BlockViewModel)
      requires Valid() && target in vms
      modifies this, script`blocks
      ensures Valid() && script == old(script) && selected == old(selected)
      ensures old(IndexOf(vms, target)) == 0 ==>
        vms == old(vms) && script.blocks == old(script.blocks) && dirty == old(dirty)
      ensures old(IndexOf(vms, target)) > 0 ==>
        |vms| == old(|vms|) && vms[0] == target && RemoveAt(vms, 0) == RemoveAt(old(vms), old(IndexOf(vms, target))) &&
        script.blocks[0] == target.block &&
        RemoveAt(script.blocks, 0) == RemoveAt(old(script.blocks), old(IndexOf(vms, target))) &&
        dirty
    {
      var currentIndex := IndexOf(vms, target);
      if currentIndex > 0 {
        var block := target.block;
        ToFront(script.blocks, vms, currentIndex);
        var blocks := Remove(script.blocks, block);
        blocks := InsertAt(blocks, 0, block);
        script.blocks := blocks;
        vms := Move(vms, currentIndex, 0);
        dirty := true;
      }
    }

    /** `MoveBlockUp`: the target swaps places with its predecessor in both lists;
        at the front it changes nothing. */
    method MoveBlockUp(target: BlockViewModel)
      requires Valid() && target in vms
      modifies this, script`blocks
      ensures Valid() && script == old(script) && selected == old(selected)
      ensures old(IndexOf(vms, target)) == 0 ==>
        vms == old(vms) && script.blocks == old(script.blocks) && dirty == old(dirty)
      ensures old(IndexOf(vms, target)) > 0 ==>
        var i := old(IndexOf(vms, target));
        vms == old(vms)[i - 1 := target][i := old(vms)[i - 1]] &&
        script.blocks == old(script.blocks)[i - 1 := target.block][i := old(script.blocks)[i - 1]] &&
        dirty
    {
      var currentIndex := IndexOf(vms, target);
      if currentIndex > 0 {
        var block := target.block;
        SwapAdjacent(script.blocks, vms, currentIndex, currentIndex - 1);
        var blockPos := IndexOf(script.blocks, block);
        var blocks := RemoveAt(script.blocks, blockPos);
        blocks := InsertAt(blocks, blockPos - 1, block);
        script.blocks := blocks;
        vms := Move(vms, currentIndex, currentIndex - 1);
        dirty := true;
      }
    }

    /** `MoveBlockDown`: the target swaps places with its successor in both lists;
        at the end it changes nothing. */
    method MoveBlockDown(target: BlockViewModel)
      requires Valid() && target in vms
      modifies this, script`blocks
      ensures Valid() && script == old(script) && selected == old(selected)
      ensures old(IndexOf(vms, target)) == old(|vms|) - 1 ==>
        vms == old(vms) && script.blocks == old(script.blocks) && dirty == old(dirty)
      ensures old(IndexOf(vms, target)) < old(|vms|) - 1 ==>
        var i := old(IndexOf(vms, target));
        vms == old(vms)[i + 1 := target][i := old(vms)[i + 1]] &&
        script.blocks == old(script.blocks)[i + 1 := target.block][i := old(script.blocks)[i + 1]] &&
        dirty
    {
      var currentIndex := IndexOf(vms, target);
      if currentIndex < |vms| - 1 {
        var block := target.block;
        SwapAdjacent(script.blocks, vms, currentIndex, currentIndex + 1);
        var blockPos := IndexOf(script.blocks, block);
        var blocks := RemoveAt(script.blocks, blockPos);
        blocks := InsertAt(blocks, blockPos + 1, block);
        script.blocks := blocks;
        vms := Move(vms, currentIndex, currentIndex + 1);
        dirty := true;
      }
    }

    /** `MoveBlockToBottom`: the target goes to the end of both lists, the others keep their order;
        a target already at the end changes nothing. */
    method MoveBlockToBottom(target: BlockViewModel)
      requires Valid() && target in vms
      modifies this, script`blocks
      ensures Valid() && script == old(script) && selected == old(selected)
      ensures old(IndexOf(vms, target)) == old(|vms|) - 1 ==>
        vms == old(vms) && script.blocks == old(script.blocks) && dirty == old(dirty)
      ensures old(IndexOf(vms, target)) < old(|vms|) - 1 ==>
        var i, last := old(IndexOf(vms, target)), old(|vms|) - 1;
        |vms| == old(|vms|) && vms[last] == target && RemoveAt(vms, last) == RemoveAt(old(vms), i) &&
        script.blocks[last] == target.block && RemoveAt(script.blocks, last) == RemoveAt(old(script.blocks), i) &&
        dirty
    {
      var currentIndex := IndexOf(vms, target);
      if currentIndex < |vms| - 1 {
        var block := target.block;
        ToBack(script.blocks, vms, currentIndex);
        var blocks := Remove(script.blocks, block);
        blocks := blocks + [block];
        script.blocks := blocks;
        vms := Move(vms, currentIndex, |vms| - 1);
        dirty := true;
      }
    }

    /** Puts `vm` and its block at position `k` of both lists (`Insert`, or `Add` at the end). */
    method InsertPair(k: nat, vm: BlockViewModel)
      requires Valid() && k <= |vms| && vm.block !in script.blocks
      modifies this, script`blocks
      ensures Valid() && script == old(script) && selected == old(selected) && dirty == old(dirty)
      ensures vms == InsertAt(old(vms), k, vm) && script.blocks == InsertAt(old(script.blocks), k, vm.block)
      ensures vms[k] == vm && RemoveAt(vms, k) == old(vms)
      ensures script.blocks[k] == vm.block && RemoveAt(script.blocks, k) == old(script.blocks)
    {
      InsertDistinct(script.blocks, k, vm.block);
      ParallelInsert(script.blocks, vms, k, vm);
      RemoveInserted(vms, k, vm);
      RemoveInserted(script.blocks, k, vm.block);
      script.blocks := InsertAt(script.blocks, k, vm.block);
      vms := InsertAt(vms, k, vm);
    }

    /** Creates a block holding `body` and its view model, and puts them right after `target` in
        both lists (each list is asked for the target's position with `IndexOf`, and the lists
        agree on it), or at the end of both when there is no target. */
    method InsertNewBlock(target: BlockViewModel?, body: BlockBody) returns (vm: BlockViewModel)
      requires Valid() && (target != null ==> target in vms)
      modifies this, script`blocks
      ensures Valid() && script == old(script) && selected == old(selected) && dirty == old(dirty)
      ensures fresh(vm) && fresh(vm.block) && vm.block.body == body && !vm.isDirty
      ensures var k := if target == null then old(|vms|) else old(IndexOf(vms, target)) + 1;
        k < |vms| && vms[k] == vm && RemoveAt(vms, k) == old(vms) &&
        script.blocks[k] == vm.block && RemoveAt(script.blocks, k) == old(script.blocks)
    {
      var block := new Block(body);
      vm := new BlockViewModel(block);
      if target != null {
        ParallelIndex(target);
        InsertPair(IndexOf(vms, target) + 1, vm);
      } else {
        InsertPair(|vms|, vm);
      }
    }

    /** `AddBlock`: a fresh, empty rule block goes right after the target, or at the end when there
        is no target, and its view model becomes the selection. */
    method AddBlock(target: BlockViewModel?)
      requires Valid() && (target != null ==> target in vms)
      modifies this, script`blocks
      ensures Valid() && script == old(script) && dirty
      ensures selected != null && fresh(selected) && fresh(selected.block)
      ensures selected.block.body == NewRuleBlockBody && !selected.isDirty
      ensures var k := if target == null then old(|vms|) else old(IndexOf(vms, target)) + 1;
        k < |vms| && vms[k] == selected && RemoveAt(vms, k) == old(vms) &&
        script.blocks[k] == selected.block && RemoveAt(script.blocks, k) == old(script.blocks)
    {
      var vm := InsertNewBlock(target, NewRuleBlockBody);
      selected := vm;
      dirty := true;
    }

    /** `AddSection`: a fresh section described "New Section" goes right after the target,
        and its view model becomes the selection. */
    method AddSection(target: BlockViewModel)
      requires Valid() && target in vms
      modifies this, script`blocks
      ensures Valid() && script == old(script) && dirty
      ensures selected != null && fresh(selected) && fresh(selected.block)
      ensures selected.block.body == SectionBlock(NewSectionDescription) && !selected.isDirty
      ensures var k := old(IndexOf(vms, target)) + 1;
        k < |vms| && vms[k] == selected && RemoveAt(vms, k) == old(vms) &&
        script.blocks[k] == selected.block && RemoveAt(script.blocks, k) == old(script.blocks)
    {
      var vm := InsertNewBlock(target, SectionBlock(NewSectionDescription));
      dirty := true;
      selected := vm;
    }

    /** `PasteBlock`, with the clipboard text and the block translator as inputs. Empty text or
        text the translator rejects changes nothing; otherwise the new block goes right after the
        target, or becomes the only block of an empty script, and is selected. */
    method PasteBlock(target: BlockViewModel?, clipboardText: string, translate: string -> Option<BlockBody>)
      requires Valid() && (|vms| > 0 ==> target != null && target in vms)
      modifies this, script`blocks
      ensures Valid() && script == old(script)
      ensures clipboardText == [] || translate(clipboardText).None? ==>
        vms == old(vms) && script.blocks == old(script.blocks) &&
        dirty == old(dirty) && selected == old(selected)
      ensures clipboardText != [] && translate(clipboardText).Some? ==>
        dirty && selected != null && fresh(selected) && fresh(selected.block) &&
        selected.block.body == translate(clipboardText).value
      ensures clipboardText != [] && translate(clipboardText).Some? && old(|vms|) > 0 ==>
        var k := old(IndexOf(vms, target)) + 1;
        k < |vms| && vms[k] == selected && RemoveAt(vms, k) == old(vms) &&
        script.blocks[k] == selected.block && RemoveAt(script.blocks, k) == old(script.blocks)
      ensures clipboardText != [] && translate(clipboardText).Some? && old(|vms|) == 0 ==>
        vms == [selected] && script.blocks == [selected.block]
    {
      if clipboardText == [] {
        return;
      }
      var translated := translate(clipboardText);
      if translated.None? {
        return;
      }
      var vm := InsertNewBlock(if |vms| > 0 then target else null, translated.value);
      selected := vm;
      dirty := true;
    }

    /** `DeleteBlock`, with the user's answer to the confirmation as `confirmed`: when confirmed the
        target leaves both lists and the others keep their order; either way nothing stays selected. */
    method DeleteBlock(target: BlockViewModel, confirmed: bool)
      requires Valid() && target in vms
      modifies this, script`blocks
      ensures Valid() && script == old(script) && selected == null
      ensures confirmed ==>
        var i := old(IndexOf(vms, target));
        vms == RemoveAt(old(vms), i) && script.blocks == RemoveAt(old(script.blocks), i) && dirty
      ensures !confirmed ==>
        vms == old(vms) && script.blocks == old(script.blocks) && dirty == old(dirty)
    {
      if confirmed {
        var i := IndexOf(vms, target);
        ParallelIndex(target);
        RemoveDistinct(script.blocks, i);
        RemoveDistinct(vms, i);
        RemoveAtDistinct(script.blocks, i);
        script.blocks := Remove(script.blocks, target.block);
        vms := Remove(vms, target);
        dirty := true;
      }
      selected := null;
    }
  }
}
