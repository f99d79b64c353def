/**
 * The sprite-frames editor of editor/plugins/sprite_frames_editor_plugin.cpp:
 * picking cells of a sprite sheet split into an h-by-v grid, selecting or
 * clearing all of them, choosing a fresh animation name when one is added or
 * renamed, and keeping the selected frame inside the animation.
 *
 * The edited `SpriteFrames` resource is seen only through its animations:
 * a map from each animation name to its frame count. Undo/redo actions are
 * applied at once, as committing them does. Drawing, textures and the
 * animated sprites that follow a rename are left out.
 */
module SpriteFrames {
  import opened Wrappers
  import Text

  // ---- Grid cells ----

  /** C++ `/` on `int`: the quotient truncated toward zero. */
  function TruncDiv(a: int, b: int): (q: int)
    requires b > 0
    ensures a >= 0 ==> q == a / b
    ensures a < 0 ==> q == -((-a) / b)
  {
    if a >= 0 then a / b else -((-a) / b)
  }

  /** `CLAMP(a, lo, hi)`. */
  function Clamp(a: int, lo: int, hi: int): (r: int)
    requires lo <= hi
    ensures lo <= r <= hi
    ensures lo <= a <= hi ==> r == a
    ensures a < lo ==> r == lo
    ensures a > hi ==> r == hi
  {
    if a < lo then lo else if a > hi then hi else a
  }

  /** The index of the cell in column `x` and row `y` of a grid `h` cells wide. */
  function CellIndex(x: int, y: int, h: int): int
  {
    h * y + x
  }

  /** The column the preview draws cell `idx` in: `idx % h`. */
  function CellColumn(idx: int, h: int): int
    requires h > 0
  {
    idx % h
  }

  /** The row the preview draws cell `idx` in: `(idx - idx % h) / h`. */
  function CellRow(idx: int, h: int): int
    requires h > 0
  {
    (idx - idx % h) / h
  }

  /** The column and row of a cell index are the ones it was made from. */
  lemma CellRoundTrip(x: int, y: int, h: int)
    requires 0 <= x < h && 0 <= y
    ensures CellColumn(CellIndex(x, y, h), h) == x
    ensures CellRow(CellIndex(x, y, h), h) == y
  {
    var i := CellIndex(x, y, h);
    DivModUnique(i, h, y, x);
    DivModUnique(y * h, h, y, 0);
  }

  /** Every non-negative index is the cell made from its column and row. */
  lemma CellFromParts(idx: int, h: int)
    requires 0 <= idx && h > 0
    ensures 0 <= CellColumn(idx, h) < h && 0 <= CellRow(idx, h)
    ensures CellIndex(CellColumn(idx, h), CellRow(idx, h), h) == idx
  {
    var q := idx / h;
    assert idx - idx % h == q * h;
    DivModUnique(q * h, h, q, 0);
  }

  lemma MulMono(a: int, b: int, h: int)
    requires a <= b && h >= 0
    ensures a * h <= b * h
  {
    assert b * h - a * h == (b - a) * h;
  }

  /** Division with remainder has one answer. */
  lemma DivModUnique(i: int, h: int, q: int, r: int)
    requires h > 0 && 0 <= r < h && i == q * h + r
    ensures i / h == q && i % h == r
  {
    var q', r' := i / h, i % h;
    assert i == q' * h + r';
    if q > q' {
      assert (q' + 1) * h == q' * h + h;
      MulMono(q' + 1, q, h);
    } else if q < q' {
      assert (q + 1) * h == q * h + h;
      MulMono(q + 1, q', h);
    }
  }

  /** A point inside a span of `w` pixels falls in one of the `n` equal slices. */
  lemma SliceBelow(p: int, n: int, w: int)
    requires w > 0 && n >= 1
    ensures 0 <= p < w ==> 0 <= p * n && p * n / w < n
  {
    if 0 <= p < w {
      MulMono(0, p, n);
      MulMono(p, w - 1, n);
      var q := p * n / w;
      assert q * w <= p * n;
      if q >= n {
        assert (w - 1) * n == w * n - n;
        MulMono(n, q, w);
      }
    }
  }

  /**
   * The column (or row) a click at `p` on a `w`-pixel preview split into
   * `n` slices picks, `CLAMP(p * n / w, 0, n - 1)`: always a slice, and for
   * a click inside the preview the slice the click lies in.
   */
  function Slice(p: int, n: int, w: int): (k: int)
    requires w > 0 && n >= 1
    ensures 0 <= k < n
    ensures 0 <= p < w ==> k == p * n / w
  {
    SliceBelow(p, n, w);
    Clamp(TruncDiv(p * n, w), 0, n - 1)
  }

  /**
   * The cell a left click at (`px`, `py`) on a `width` by `height` preview
   * picks in an `h` by `v` grid: always a cell of the grid, and for a click
   * inside the preview the slice the click lies in.
   */
  function ClickedCell(px: int, py: int, width: int, height: int, h: int, v: int): (idx: int)
    requires width > 0 && height > 0 && h >= 1 && v >= 1
    ensures 0 <= idx < h * v
    ensures 0 <= px < width && 0 <= py < height ==>
      CellColumn(idx, h) == px * h / width && CellRow(idx, h) == py * v / height
  {
    var x := Slice(px, h, width);
    var y := Slice(py, v, height);
    MulMono(y, v - 1, h);
    assert h * (v - 1) == h * v - h;
    CellRoundTrip(x, y, h);
    CellIndex(x, y, h)
  }

  /** The cells from `lo` to `hi`, both included. */
  function Span(lo: int, hi: int): (r: set<int>)
    ensures forall i :: i in r <==> lo <= i <= hi
    decreases hi - lo
  {
    if hi < lo then {} else Span(lo, hi - 1) + {hi}
  }

  /** A plain click: the cell leaves the selection if it was in it and joins it otherwise. */
  function Toggle(s: set<int>, idx: int): (r: set<int>)
    ensures idx in r <==> idx !in s
    ensures forall i :: i != idx ==> (i in r <==> i in s)
  {
    if idx in s then s - {idx} else s + {idx}
  }

  /** Clicking the same cell twice restores the selection. */
  lemma ToggleTwice(s: set<int>, idx: int)
    ensures Toggle(Toggle(s, idx), idx) == s
  {
    assert forall i :: i in Toggle(Toggle(s, idx), idx) <==> i in s;
  }

  /** Select/clear all: clears a selection that already holds all `n` cells, else adds the missing ones. */
  function AllToggled(s: set<int>, n: nat): (r: set<int>)
    ensures Span(0, n - 1) <= s ==> r == {}
    ensures !(Span(0, n - 1) <= s) ==> Span(0, n - 1) <= r && s <= r && r - Span(0, n - 1) == s - Span(0, n - 1)
  {
    if Span(0, n - 1) <= s then {} else s + Span(0, n - 1)
  }

  /** Pressing select/clear all twice on a grid with a missing cell first selects all, then clears. */
  lemma {:induction false} AllToggledTwice(s: set<int>, n: nat)
    requires !(Span(0, n - 1) <= s)
    ensures AllToggled(AllToggled(s, n), n) == {}
  {
    assert Span(0, n - 1) <= AllToggled(s, n);
  }

  // ---- Animation names ----

  /** Candidate `k` of the naming loop: the base itself, then "base 1", "base 2", ... */
  function Candidate(base: string, k: nat): (name: string)
    ensures k == 0 <==> |name| == |base|
  {
    if k == 0 then base else base + " " + Text.NatToString(k)
  }

  /** Different numbers give different candidates. */
  lemma CandidatesDistinct(base: string, a: nat, b: nat)
    requires a != b
    ensures Candidate(base, a) != Candidate(base, b)
  {
    if a > 0 && b > 0 && Candidate(base, a) == Candidate(base, b) {
      var sa, sb := Text.NatToString(a), Text.NatToString(b);
      assert Candidate(base, a)[|base| + 1..] == sa;
      assert Candidate(base, b)[|base| + 1..] == sb;
      Text.NatToStringInjective(a, b);
    }
  }

  /** The candidates numbered below `k`. */
  function Tried(base: string, k: nat): (r: set<string>)
    ensures forall j :: 0 <= j < k ==> Candidate(base, j) in r
  {
    set j | 0 <= j < k :: Candidate(base, j)
  }

  lemma TriedStep(base: string, k: nat)
    ensures Tried(base, k + 1) == Tried(base, k) + {Candidate(base, k)}
    ensures Candidate(base, k) !in Tried(base, k)
  {
    forall j | 0 <= j < k
      ensures Candidate(base, j) != Candidate(base, k)
    {
      CandidatesDistinct(base, j, k);
    }
  }

  /**
   * The number the naming loop stops at when it starts from `k`: the first
   * candidate from `k` on that is not taken. The loop ends because each
   * taken candidate is a different taken name.
   */
  function FreeCounter(base: string, taken: set<string>, k: nat): (c: nat)
    requires Tried(base, k) <= taken
    ensures c >= k && Candidate(base, c) !in taken
    ensures forall j :: k <= j < c ==> Candidate(base, j) in taken
    decreases taken - Tried(base, k)
  {
    TriedStep(base, k);
    if Candidate(base, k) !in taken then k else FreeCounter(base, taken, k + 1)
  }

  /** The name the loop settles on: the base when it is free, else "base N" for the smallest free N. */
  function UniqueName(base: string, taken: set<string>): (name: string)
    ensures name !in taken
    ensures base !in taken ==> name == base
  {
    Candidate(base, FreeCounter(base, taken, 0))
  }

  /** The smallest N of `UniqueName`: every smaller candidate is taken. */
  lemma UniqueNameSmallest(base: string, taken: set<string>)
    ensures exists c: nat :: UniqueName(base, taken) == Candidate(base, c) && forall j :: 0 <= j < c ==> Candidate(base, j) in taken
  {
    var c := FreeCounter(base, taken, 0);
    assert UniqueName(base, taken) == Candidate(base, c);
  }

  /** The naming loop of `_animation_add` and `_animation_name_edited`. */
  method PickUniqueName(base: string, taken: set<string>) returns (name: string)
    ensures name == UniqueName(base, taken)
  {
    name := base;
    var counter: nat := 0;
    while name in taken
      invariant name == Candidate(base, counter)
      invariant Tried(base, counter) <= taken
      invariant FreeCounter(base, taken, counter) == FreeCounter(base, taken, 0)
      decreases taken - Tried(base, counter)
    {
      TriedStep(base, counter);
      counter := counter + 1;
      name := base + " " + Text.NatToString(counter);
    }
  }

  /** The typed name made safe: '/' becomes '_' and ',' becomes ' '. */
  function Sanitize(text: string): (r: string)
    ensures '/' !in r && ',' !in r
  {
    var s := Text.ReplaceAll(text, "/", "_");
    Text.ReplaceCharRemoves(text, '/', "_");
    Text.ReplaceCharRemoves(s, ',', " ");
    Text.ReplaceKeepsOthers(s, ",", " ", '/');
    Text.ReplaceAll(s, ",", " ")
  }

  /** The edited `SpriteFrames`: each animation's frame count, and the animation being edited. */
  datatype Library = Library(anims: map<string, nat>, edited: string)

  /** `rename_animation(from, to)`: the animation keeps its frames under the new name. */
  function RenameAnimation(anims: map<string, nat>, from: string, to: string): (r: map<string, nat>)
    requires from in anims && to !in anims
    ensures r.Keys == anims.Keys - {from} + {to}
    ensures r[to] == anims[from]
    ensures forall a :: a in anims && a != from ==> r[a] == anims[a]
  {
    (anims - {from})[to := anims[from]]
  }

  /** A rename the editor carries out: the edited animation exists and the typed name differs from it. */
  predicate Renames(lib: Library, text: string)
  {
    lib.edited in lib.anims && text != lib.edited
  }

  /** `_animation_name_edited` as written: the animation gets the unique name, but `edited_anim` becomes the sanitized name without its number. */
  function RenameAsWritten(lib: Library, text: string): (r: Library)
    requires Renames(lib, text)
    ensures r.edited == Sanitize(text)
  {
    var name := UniqueName(Sanitize(text), lib.anims.Keys);
    Library(RenameAnimation(lib.anims, lib.edited, name), Sanitize(text))
  }

  /** `_animation_name_edited` with `edited_anim` set to the name the animation was given. */
  function Rename(lib: Library, text: string): (r: Library)
    requires Renames(lib, text)
  {
    var name := UniqueName(Sanitize(text), lib.anims.Keys);
    Library(RenameAnimation(lib.anims, lib.edited, name), name)
  }

  /** After a rename the editor still edits the renamed animation, with its frames, under a name no other animation had. */
  lemma RenameKeepsEditing(lib: Library, text: string)
    requires Renames(lib, text)
    ensures var r := Rename(lib, text);
      && r.edited in r.anims && r.anims[r.edited] == lib.anims[lib.edited]
      && r.edited !in lib.anims
      && r.anims.Keys == lib.anims.Keys - {lib.edited} + {r.edited}
  {
  }

  /**
   * Renaming "a" to "b" while "b" exists: the animation becomes "b 1", but
   * as written the editor goes on to edit the other animation, "b".
   */
  lemma RenameAsWrittenEditsOther()
    ensures var lib := Library(map["a" := 3, "b" := 5], "a");
      var r := RenameAsWritten(lib, "b");
      && r.anims == map["b" := 5, "b 1" := 3]
      && r.edited == "b" && r.anims[r.edited] != lib.anims[lib.edited]
  {
    var lib := Library(map["a" := 3, "b" := 5], "a");
    var taken := lib.anims.Keys;
    assert Text.ReplaceAll("b", "/", "_") == "b";
    assert Text.ReplaceAll("b", ",", " ") == "b";
    assert Sanitize("b") == "b";
    assert Text.NatToString(1) == "1";
    assert Candidate("b", 0) == "b" && Candidate("b", 1) == "b 1";
    assert Tried("b", 1) == {"b"};
    assert FreeCounter("b", taken, 1) == 1;
    assert UniqueName("b", taken) == "b 1";
    assert RenameAnimation(lib.anims, "a", "b 1") == map["b" := 5, "b 1" := 3];
  }

  // ---- The editor ----

  class SpriteFramesEditor {
    var framesSelected: set<int>
    var lastFrameSelected: int
    /** The values of the horizontal and vertical split spin boxes. */
    var sheetH: int
    var sheetV: int
    var anims: map<string, nat>
    var editedAnim: string
    var sel: int
    var updating: bool

    /** The spin boxes range over 1..128. */
    ghost predicate Valid()
      reads this
    {
      1 <= sheetH <= 128 && 1 <= sheetV <= 128
    }

    /** No frame selected, editing "default"; `last_frame_selected` is set when a sheet is opened. */
    constructor (library: map<string, nat>)
      ensures Valid() && sheetH == 1 && sheetV == 1
      ensures framesSelected == {} && anims == library && editedAnim == "default"
      ensures sel == -1 && !updating
    {
      framesSelected := {};
      sheetH := 1;
      sheetV := 1;
      anims := library;
      editedAnim := "default";
      sel := -1;
      updating := false;
    }

    /**
     * `_sheet_preview_input` for a left click at (`px`, `py`) on a `width`
     * by `height` preview: with shift after an earlier click, every cell
     * between the two is selected, or deselected with ctrl; otherwise the
     * clicked cell is toggled. The clicked cell becomes the last one.
     */
    method SheetPreviewInput(px: int, py: int, width: int, height: int, shift: bool, ctrl: bool)
      requires Valid() && width > 0 && height > 0
      modifies this`framesSelected, this`lastFrameSelected
      ensures lastFrameSelected == ClickedCell(px, py, width, height, sheetH, sheetV)
      ensures shift && old(lastFrameSelected) >= 0 ==>
        var lo := if lastFrameSelected < old(lastFrameSelected) then lastFrameSelected else old(lastFrameSelected);
        var hi := if lastFrameSelected < old(lastFrameSelected) then old(lastFrameSelected) else lastFrameSelected;
        framesSelected == if ctrl then old(framesSelected) - Span(lo, hi) else old(framesSelected) + Span(lo, hi)
      ensures !(shift && old(lastFrameSelected) >= 0) ==> framesSelected == Toggle(old(framesSelected), lastFrameSelected)
    {
      var idx := ClickedCell(px, py, width, height, sheetH, sheetV);
      if shift && lastFrameSelected >= 0 {
        var from, to := idx, lastFrameSelected;
        if from > to {
          from, to := to, from;
        }
        var s := framesSelected;
        var i := from;
        while i <= to
          invariant from <= i <= to + 1
          invariant s == if ctrl then framesSelected - Span(from, i - 1) else framesSelected + Span(from, i - 1)
        {
          assert Span(from, i) == Span(from, i - 1) + {i};
          if ctrl {
            s := s - {i};
          } else {
            s := s + {i};
          }
          i := i + 1;
        }
        framesSelected := s;
      } else {
        framesSelected := Toggle(framesSelected, idx);
      }
      lastFrameSelected := idx;
    }

    /** `_sheet_select_clear_all_frames`: the loop adds each missing cell of the grid; when none was missing the selection is cleared. */
    method SelectClearAllFrames()
      requires Valid()
      modifies this`framesSelected
      ensures framesSelected == AllToggled(old(framesSelected), sheetH * sheetV)
    {
      var n := sheetH * sheetV;
      var s := framesSelected;
      var shouldClear := true;
      var i := 0;
      while i < n
        invariant 0 <= i <= n
        invariant s == framesSelected + Span(0, i - 1)
        invariant shouldClear <==> Span(0, i - 1) <= framesSelected
      {
        assert Span(0, i) == Span(0, i - 1) + {i};
        if i !in s {
          s := s + {i};
          shouldClear := false;
        }
        i := i + 1;
      }
      if shouldClear {
        s := {};
      }
      framesSelected := s;
    }

    /** `_sheet_spin_changed` after the spin boxes move to `h` by `v`: the selection and the last cell are forgotten. */
    method SheetSpinChanged(h: int, v: int)
      requires 1 <= h <= 128 && 1 <= v <= 128
      modifies this`sheetH, this`sheetV, this`framesSelected, this`lastFrameSelected
      ensures Valid() && sheetH == h && sheetV == v
      ensures framesSelected == {} && lastFrameSelected == -1
    {
      sheetH, sheetV := h, v;
      framesSelected := {};
      lastFrameSelected := -1;
    }

    /**
     * `_prepare_sprite_sheet`: nothing happens when the file does not load;
     * a texture other than the shown one resets the grid to 4 by 4; the
     * selection and the last cell are forgotten.
     */
    method PrepareSpriteSheet(loaded: bool, sameTexture: bool)
      requires Valid()
      modifies this`sheetH, this`sheetV, this`framesSelected, this`lastFrameSelected
      ensures Valid()
      ensures !loaded ==> unchanged(this)
      ensures loaded ==> framesSelected == {} && lastFrameSelected == -1
      ensures loaded && !sameTexture ==> sheetH == 4 && sheetV == 4
      ensures loaded && sameTexture ==> sheetH == old(sheetH) && sheetV == old(sheetV)
    {
      if !loaded {
        return;
      }
      if !sameTexture {
        sheetH := 4;
        sheetV := 4;
      }
      framesSelected := {};
      lastFrameSelected := -1;
    }

    /** `_animation_add`: a new empty animation under the first free name of "New Anim", "New Anim 1", ..., which becomes the edited one. */
    method AnimationAdd()
      modifies this`anims, this`editedAnim
      ensures editedAnim == UniqueName("New Anim", old(anims).Keys)
      ensures editedAnim !in old(anims) && anims == old(anims)[editedAnim := 0]
    {
      var name := PickUniqueName("New Anim", anims.Keys);
      anims := anims[name := 0];
      editedAnim := name;
    }

    /**
     * `_animation_name_edited` with `text` the edited tree item's text, or
     * none without an edited item: nothing happens while updating, when the
     * edited animation is gone, or when the text is its name; otherwise the
     * animation is renamed as `Rename` says.
     */
    method AnimationNameEdited(text: Option<string>)
      modifies this`anims, this`editedAnim
      ensures updating || text.None? || !Renames(Library(old(anims), old(editedAnim)), text.value) ==>
        anims == old(anims) && editedAnim == old(editedAnim)
      ensures !updating && text.Some? && Renames(Library(old(anims), old(editedAnim)), text.value) ==>
        Library(anims, editedAnim) == Rename(Library(old(anims), old(editedAnim)), text.value)
    {
      if updating {
        return;
      }
      if editedAnim !in anims {
        return;
      }
      if text.None? {
        return;
      }
      if text.value == editedAnim {
        return;
      }
      var base := Sanitize(text.value);
      var name := PickUniqueName(base, anims.Keys);
      anims := RenameAnimation(anims, editedAnim, name);
      editedAnim := name;
    }

    /**
     * The selection check of `_update_library`: with the edited animation
     * present, `sel` is pulled into its frames when it has any; past the end
     * of an empty animation it becomes -1.
     */
    method UpdateLibrarySelection()
      modifies this`sel
      ensures editedAnim !in anims ==> sel == old(sel)
      ensures editedAnim in anims && anims[editedAnim] > 0 ==> 0 <= sel < anims[editedAnim]
      ensures editedAnim in anims && 0 <= old(sel) < anims[editedAnim] ==> sel == old(sel)
      ensures editedAnim in anims && anims[editedAnim] == 0 ==> sel == if old(sel) >= 0 then -1 else old(sel)
    {
      if editedAnim !in anims {
        return;
      }
      var count: int := anims[editedAnim];
      if sel >= count {
        sel := count - 1;
      } else if sel < 0 && count != 0 {
        sel := 0;
      }
    }
  }
}
