/** The screen saver's window attributes: a mask and a value list are checked and re-encoded as
    another mask and value list, plus the resources that were looked up. */
module Saver {
  import opened Cards
  import opened Options

  /** A mask is the set of the numbers of its one bits. */
  type Mask = set<nat>

  const CW_BACK_PIXMAP := 0
  const CW_BORDER_PIXMAP := 2
  const CW_BIT_GRAVITY := 4
  const CW_WIN_GRAVITY := 5
  const CW_BACKING_STORE := 6
  const CW_OVERRIDE_REDIRECT := 9
  const CW_SAVE_UNDER := 10
  const CW_COLORMAP := 13
  const CW_CURSOR := 14

  const NONE: Card32 := 0
  const PARENT_RELATIVE: Card32 := 1
  const COPY_FROM_PARENT: Card32 := 0
  const STATIC_GRAVITY := 10
  const ALWAYS := 2
  const X_TRUE: Card32 := 1

  datatype Status = Success | BadLength | BadValue | BadMatch | Missing(code: nat)

  /** What a resource look-up finds: an error, or an object that fits the screen or does not. */
  datatype Lookup = Failed(code: nat) | Found(fits: bool)

  /** The surroundings the values are checked against. */
  datatype Context = Context(
    parentDepth: bool,
    pixmap: Card32 -> Lookup,
    colormap: Card32 -> Lookup,
    cursor: Card32 -> Lookup)

  /** The number of one bits below bit `k`: Ones(mask & ((1 << k) - 1)). */
  function Rank(mask: Mask, k: nat): nat {
    |set b | b in mask && b < k|
  }

  // ----- what the request means

  /** The value asked for by attribute `k`. */
  function Asked(mask: Mask, values: seq<Card32>, k: nat): Card32 {
    if k in mask && Rank(mask, k) < |values| then values[Rank(mask, k)] else 0
  }

  function PixmapError(l: Lookup): Status {
    match l case Failed(code) => Missing(code) case Found(fits) => if fits then Success else BadMatch
  }

  /** The verdict on attribute `k` with value `v`. */
  function Verdict(ctx: Context, k: nat, v: Card32): Status {
    if k == CW_BACK_PIXMAP then
      if v == NONE then Success
      else if v == PARENT_RELATIVE then (if ctx.parentDepth then Success else BadMatch)
      else PixmapError(ctx.pixmap(v))
    else if k == CW_BORDER_PIXMAP then
      if v == COPY_FROM_PARENT then (if ctx.parentDepth then Success else BadMatch)
      else PixmapError(ctx.pixmap(v))
    else if k == CW_BIT_GRAVITY || k == CW_WIN_GRAVITY then
      if v % 256 <= STATIC_GRAVITY then Success else BadValue
    else if k == CW_BACKING_STORE then
      if v % 256 <= ALWAYS then Success else BadValue
    else if k == CW_OVERRIDE_REDIRECT || k == CW_SAVE_UNDER then
      if v % 256 <= 1 then Success else BadValue
    else if k == CW_COLORMAP then PixmapError(ctx.colormap(v))
    else if k == CW_CURSOR then
      if v == NONE then Success
      else match ctx.cursor(v) case Failed(code) => Missing(code) case Found(_) => Success
    else if k <= CW_CURSOR then Success
    else BadValue
  }

  /** The attribute is held as a looked-up resource instead of a value. */
  predicate HeldAside(k: nat, v: Card32) {
    || (k == CW_BACK_PIXMAP && v != NONE && v != PARENT_RELATIVE)
    || (k == CW_BORDER_PIXMAP && v != COPY_FROM_PARENT)
    || k == CW_COLORMAP
    || (k == CW_CURSOR && v != NONE)
  }

  /** The value stored for an attribute that is kept. */
  function Kept(k: nat, v: Card32): Card32 {
    if k == CW_OVERRIDE_REDIRECT then X_TRUE
    else if k in {CW_BIT_GRAVITY, CW_WIN_GRAVITY, CW_BACKING_STORE, CW_SAVE_UNDER} then v % 256
    else v
  }

  /** The mask that is worked through. */
  function Full(mask: Mask): Mask {
    mask + {CW_OVERRIDE_REDIRECT}
  }

  /** What is stored: the mask without the attributes held aside, and the values in mask order. */
  ghost predicate Encodes(mask: Mask, input: seq<Card32>, stored: Mask, values: seq<Card32>) {
    && stored == (set k | k in Full(mask) && !HeldAside(k, Asked(mask, input, k)))
    && |values| == |stored|
    && forall k :: k in stored ==>
         Rank(stored, k) < |values| && values[Rank(stored, k)] == Kept(k, Asked(mask, input, k))
  }

  /** The resource held for an attribute. */
  function Aside(mask: Mask, input: seq<Card32>, k: nat): Option<Card32> {
    if k in mask && HeldAside(k, Asked(mask, input, k)) then Some(Asked(mask, input, k)) else None
  }

  /** The status that a look-up gives: the object's own error, or Match if it does not fit. */
  predicate LookupAnswers(l: Lookup, status: Status) {
    match l
    case Failed(code) => status == Missing(code)
    case Found(fits) => status == if fits then Success else BadMatch
  }

  /** The legal values, bit by bit of the mask. */
  lemma VerdictMeans(ctx: Context, k: nat, v: Card32)
    ensures var status := Verdict(ctx, k, v);
            match k
            case 0 => if v == 0 then status == Success
                      else if v == 1 then status == (if ctx.parentDepth then Success else BadMatch)
                      else LookupAnswers(ctx.pixmap(v), status)
            case 2 => if v == 0 then status == (if ctx.parentDepth then Success else BadMatch)
                      else LookupAnswers(ctx.pixmap(v), status)
            case 4 => status == if v % 256 <= 10 then Success else BadValue
            case 5 => status == if v % 256 <= 10 then Success else BadValue
            case 6 => status == if v % 256 in {0, 1, 2} then Success else BadValue
            case 9 => status == if v % 256 in {0, 1} then Success else BadValue
            case 10 => status == if v % 256 in {0, 1} then Success else BadValue
            case 13 => LookupAnswers(ctx.colormap(v), status)
            case 14 => if v == 0 || ctx.cursor(v).Found? then status == Success
                       else status == Missing(ctx.cursor(v).code)
            case _ => status == if k in {1, 3, 7, 8, 11, 12} then Success else BadValue
  {
  }

  /** What is stored of an attribute: a resource goes to its own field and leaves no value, override-redirect is
      always 1, and of an attribute that is a byte only the byte is kept. */
  lemma StoredMeans(k: nat, v: Card32)
    ensures HeldAside(k, v) <==> (k == 0 && v > 1) || (k == 2 && v > 0) || k == 13 || (k == 14 && v > 0)
    ensures Kept(k, v) == if k == 9 then 1 else if k in {4, 5, 6, 10} then v % 256 else v
  {
  }

  /** Every mask is worked through with override-redirect in it. The values come in the order of the bits. */
  lemma AskedMeans(mask: Mask, input: seq<Card32>, k: nat)
    ensures k in Full(mask) <==> k in mask || k == 9
    ensures k !in mask ==> Asked(mask, input, k) == 0
    ensures k in mask && |input| == |mask| ==>
              var below := |set b | b in mask && b < k|; below < |input| && Asked(mask, input, k) == input[below]
  {
    if k in mask {
      RankBound(mask, k);
    }
  }

  // ----- ranks

  lemma RankBelow(a: Mask, b: Mask, k: nat)
    requires forall i :: i < k ==> (i in a <==> i in b)
    ensures Rank(a, k) == Rank(b, k)
  {
    assert (set i | i in a && i < k) == (set i | i in b && i < k);
  }

  lemma RankBound(a: Mask, k: nat)
    requires k in a
    ensures Rank(a, k) < |a|
  {
    var below := set i | i in a && i < k;
    CardGrows(below, a - {k});
  }

  lemma CardGrows(a: Mask, b: Mask)
    requires a <= b
    ensures |a| <= |b|
  {
    assert b == a + (b - a);
  }

  lemma {:induction false} LowestOf(s: Mask) returns (k: nat)
    requires s != {}
    ensures k in s && forall b :: b in s ==> k <= b
    decreases |s|
  {
    k :| k in s;
    var rest := s - {k};
    forall b | b in s ensures b == k || b in rest { }
    if rest != {} {
      var m := LowestOf(rest);
      if m < k {
        k := m;
      }
    }
  }

  /** lowbit */
  method LowBit(s: Mask) returns (k: nat)
    requires s != {}
    ensures k in s && forall b :: b in s ==> k <= b
  {
    ghost var m := LowestOf(s);
    k :| k in s && forall b :: b in s ==> k <= b;
  }

  // ----- the walk

  /** The resources held aside. */
  datatype Sides = Sides(backgroundPixmap: Option<Card32>, borderPixmap: Option<Card32>, colormap: Option<Card32>,
                         cursor: Option<Card32>)

  /** The resource held aside for attribute `k`. */
  function SideAt(s: Sides, k: nat): Option<Card32> {
    if k == CW_BACK_PIXMAP then s.backgroundPixmap
    else if k == CW_BORDER_PIXMAP then s.borderPixmap
    else if k == CW_COLORMAP then s.colormap
    else if k == CW_CURSOR then s.cursor
    else None
  }

  /** The resources that are aside when the attributes in `past` are done. */
  ghost predicate SidesOk(mask: Mask, input: seq<Card32>, past: Mask, s: Sides) {
    forall k :: SideAt(s, k) == if k in past then Aside(mask, input, k) else None
  }

  function PutAside(s: Sides, k: nat, v: Card32): Sides {
    if k == CW_BACK_PIXMAP then s.(backgroundPixmap := Some(v))
    else if k == CW_BORDER_PIXMAP then s.(borderPixmap := Some(v))
    else if k == CW_COLORMAP then s.(colormap := Some(v))
    else if k == CW_CURSOR then s.(cursor := Some(v))
    else s
  }

  /** A resource is held in the field of its attribute. */
  lemma AsideMeans(s: Sides, k: nat, v: Card32)
    ensures SideAt(s, 0) == s.backgroundPixmap && SideAt(s, 2) == s.borderPixmap
    ensures SideAt(s, 13) == s.colormap && SideAt(s, 14) == s.cursor
    ensures k in {0, 2, 13, 14} ==> SideAt(PutAside(s, k, v), k) == Some(v)
    ensures forall i :: i != k ==> SideAt(PutAside(s, k, v), i) == SideAt(s, i)
  {
  }

  /** The resources aside after one more attribute. */
  ghost predicate SideTaken(s: Sides, k: nat, v: Card32, next: Sides) {
    next == if HeldAside(k, v) then PutAside(s, k, v) else s
  }

  lemma SidesMove(mask: Mask, input: seq<Card32>, past: Mask, s: Sides, k: nat, next: Sides)
    requires SidesOk(mask, input, past, s) && k !in past && k in Full(mask)
    requires SideTaken(s, k, Asked(mask, input, k), next)
    ensures SidesOk(mask, input, past + {k}, next)
  {
    forall i ensures SideAt(next, i) == if i in past + {k} then Aside(mask, input, i) else None {
      assert SideAt(s, i) == if i in past then Aside(mask, input, i) else None;
    }
  }

  /** ScreenSaverAttrRec, as far as the walk fills it. */
  class Attr {
    var mask: Mask
    const values: array<Card32>
    var backgroundPixmap: Option<Card32>
    var borderPixmap: Option<Card32>
    var colormap: Option<Card32>
    var cursor: Option<Card32>

    constructor (mask: Mask, len: nat)
      ensures this.mask == mask && fresh(values) && values.Length == len + 1
      ensures backgroundPixmap == borderPixmap == colormap == cursor == None
    {
      this.mask := mask;
      values := new Card32[len + 1];
      backgroundPixmap, borderPixmap, colormap, cursor := None, None, None, None;
    }

    ghost function HeldSides(): Sides
      reads this
    {
      Sides(backgroundPixmap, borderPixmap, colormap, cursor)
    }

    /** One attribute, and the values kept so far. */
    method TakeNext(ctx: Context, given: Mask, k: nat, v: Card32, at: nat) returns (status: Status, at': nat)
      requires at < values.Length && k in mask
      requires k == CW_OVERRIDE_REDIRECT && k !in given ==> v == 0
      modifies this, values
      ensures status == Verdict(ctx, k, v)
      ensures status == Success ==>
                && mask == old(mask) - (if HeldAside(k, v) then {k} else {})
                && at' <= values.Length && values[..at'] == old(values[..at]) + ToKeep(k, v)
                && SideTaken(old(HeldSides()), k, v, HeldSides())
    {
      status, at' := Take(ctx, given, k, v, at);
      if status == Success {
        assert values[..at] == old(values[..at]);
        if !HeldAside(k, v) {
          assert values[..at + 1] == values[..at] + [values[at]];
        }
      }
    }

    /** One attribute: it is refused, kept as value number `at`, or held aside with its bit cleared.
        `at` is the place of the next value, and is moved on when one is written. */
    method Take(ctx: Context, given: Mask, k: nat, v: Card32, at: nat) returns (status: Status, at': nat)
      requires at < values.Length && k in mask
      requires k == CW_OVERRIDE_REDIRECT && k !in given ==> v == 0
      modifies this, values
      ensures status == Verdict(ctx, k, v)
      ensures status == Success ==>
                && mask == old(mask) - (if HeldAside(k, v) then {k} else {})
                && at' == at + (if HeldAside(k, v) then 0 else 1)
                && (!HeldAside(k, v) ==> values[at] == Kept(k, v))
                && SideTaken(old(HeldSides()), k, v, HeldSides())
      ensures forall i :: 0 <= i < values.Length && i != at ==> values[i] == old(values[i])
      ensures status != Success ==> mask == old(mask) && HeldSides() == old(HeldSides())
    {
      at' := at;
      if k == CW_BACK_PIXMAP {
        if v == NONE {
          values[at], at' := NONE, at + 1;
        } else if v == PARENT_RELATIVE {
          if !ctx.parentDepth {
            return BadMatch, at;
          }
          values[at], at' := PARENT_RELATIVE, at + 1;
        } else {
          status := PixmapError(ctx.pixmap(v));
          if status == Success {
            backgroundPixmap, mask := Some(v), mask - {CW_BACK_PIXMAP};
          }
          return;
        }
      } else if k == CW_BORDER_PIXMAP {
        if v == COPY_FROM_PARENT {
          if !ctx.parentDepth {
            return BadMatch, at;
          }
          values[at], at' := COPY_FROM_PARENT, at + 1;
        } else {
          status := PixmapError(ctx.pixmap(v));
          if status == Success {
            borderPixmap, mask := Some(v), mask - {CW_BORDER_PIXMAP};
          }
          return;
        }
      } else if k == CW_BIT_GRAVITY || k == CW_WIN_GRAVITY {
        var val := v % 256;
        if val > STATIC_GRAVITY {
          return BadValue, at;
        }
        values[at], at' := val, at + 1;
      } else if k == CW_BACKING_STORE {
        var val := v % 256;
        if val != 0 && val != 1 && val != 2 {
          return BadValue, at;
        }
        values[at], at' := val, at + 1;
      } else if k == CW_OVERRIDE_REDIRECT {
        if k in given {
          var val := v % 256;
          if val != 1 && val != 0 {
            return BadValue, at;
          }
        }
        values[at], at' := X_TRUE, at + 1;
      } else if k == CW_SAVE_UNDER {
        var val := v % 256;
        if val != 1 && val != 0 {
          return BadValue, at;
        }
        values[at], at' := val, at + 1;
      } else if k == CW_COLORMAP {
        status := PixmapError(ctx.colormap(v));
        if status == Success {
          colormap, mask := Some(v), mask - {CW_COLORMAP};
        }
        return;
      } else if k == CW_CURSOR {
        if v == NONE {
          values[at], at' := NONE, at + 1;
        } else {
          var l := ctx.cursor(v);
          if l.Failed? {
            return Missing(l.code), at;
          }
          cursor, mask := Some(v), mask - {CW_CURSOR};
        }
      } else if k < CW_CURSOR {
        values[at], at' := v, at + 1;
      } else {
        return BadValue, at;
      }
      status := Success;
    }
  }

  /** The attribute has been dealt with rightly. */
  ghost predicate Stored(mask: Mask, input: seq<Card32>, stored: Mask, values: seq<Card32>, k: nat) {
    Rank(stored, k) < |values| && values[Rank(stored, k)] == Kept(k, Asked(mask, input, k))
  }

  /** Every bit done is below every bit to do. */
  ghost predicate Split(full: Mask, past: Mask, todo: Mask) {
    && past + todo == full && past !! todo
    && forall p, t :: p in past && t in todo ==> p < t
  }

  /** The stored mask while the bits in `todo` are not decided. */
  ghost function StoredMask(mask: Mask, input: seq<Card32>, todo: Mask): Mask {
    set k | k in Full(mask) && (k in todo || !HeldAside(k, Asked(mask, input, k)))
  }

  /** The walk when the attributes in `past` are done and those in `todo` are not. */
  ghost predicate Walking(ctx: Context, mask: Mask, input: seq<Card32>, past: Mask, todo: Mask,
                          stored: Mask, values: seq<Card32>, slot: nat)
  {
    && Split(Full(mask), past, todo)
    && slot == |past * mask|
    && stored == StoredMask(mask, input, todo)
    && |values| == |past * stored|
    && (forall k :: k in past && k in stored ==> Stored(mask, input, stored, values, k))
    && (forall k :: k in past ==> Verdict(ctx, k, Asked(mask, input, k)) == Success)
  }

  lemma SplitMoves(full: Mask, past: Mask, todo: Mask, k: nat)
    requires Split(full, past, todo) && k in todo && forall b :: b in todo ==> k <= b
    ensures Split(full, past + {k}, todo - {k})
  {
    assert past + {k} + (todo - {k}) == full;
  }

  /** The bits below the lowest undecided one are the decided ones. */
  lemma BelowIsPast(full: Mask, past: Mask, todo: Mask, some: Mask, k: nat)
    requires Split(full, past, todo) && some <= full && k in todo && forall b :: b in todo ==> k <= b
    ensures Rank(some, k) == |past * some|
  {
    assert (set b | b in some && b < k) == past * some by {
      forall b | b in some ensures b < k <==> b in past {
        assert b in past + todo;
      }
    }
  }

  lemma OneMore(past: Mask, some: Mask, k: nat)
    requires k !in past
    ensures |(past + {k}) * some| == |past * some| + if k in some then 1 else 0
  {
    assert (past + {k}) * some == past * some + if k in some then {k} else {};
  }

  lemma StoredMaskMoves(mask: Mask, input: seq<Card32>, todo: Mask, k: nat)
    requires k in todo && todo <= Full(mask)
    ensures StoredMask(mask, input, todo - {k})
      == StoredMask(mask, input, todo) - if HeldAside(k, Asked(mask, input, k)) then {k} else {}
  {
  }

  /** Values already written stay right when a later bit is cleared or a value is added. */
  lemma StoredStays(mask: Mask, input: seq<Card32>, stored: Mask, values: seq<Card32>, b: nat,
                    stored': Mask, more: seq<Card32>)
    requires Stored(mask, input, stored, values, b)
    requires forall i :: i < b ==> (i in stored <==> i in stored')
    ensures Stored(mask, input, stored', values + more, b)
  {
    RankBelow(stored, stored', b);
  }

  /** What one attribute adds. */
  lemma WalkStep(ctx: Context, mask: Mask, input: seq<Card32>, past: Mask, todo: Mask, stored: Mask,
                 values: seq<Card32>, slot: nat, k: nat, stored': Mask, more: seq<Card32>)
    requires Walking(ctx, mask, input, past, todo, stored, values, slot)
    requires k in todo && forall b :: b in todo ==> k <= b
    requires Verdict(ctx, k, Asked(mask, input, k)) == Success
    requires var v := Asked(mask, input, k);
             && stored' == stored - (if HeldAside(k, v) then {k} else {})
             && more == (if HeldAside(k, v) then [] else [Kept(k, v)])
    ensures Walking(ctx, mask, input, past + {k}, todo - {k}, stored', values + more, slot + if k in mask then 1 else 0)
  {
    SplitMoves(Full(mask), past, todo, k);
    OneMore(past, mask, k);
    StoredMaskMoves(mask, input, todo, k);
    ValuesStep(mask, input, past, todo, stored, values, k, stored', more);
  }

  lemma ValuesStep(mask: Mask, input: seq<Card32>, past: Mask, todo: Mask, stored: Mask, values: seq<Card32>,
                   k: nat, stored': Mask, more: seq<Card32>)
    requires Split(Full(mask), past, todo) && stored == StoredMask(mask, input, todo) && |values| == |past * stored|
    requires forall b :: b in past && b in stored ==> Stored(mask, input, stored, values, b)
    requires k in todo && forall b :: b in todo ==> k <= b
    requires var v := Asked(mask, input, k);
             && stored' == stored - (if HeldAside(k, v) then {k} else {})
             && more == (if HeldAside(k, v) then [] else [Kept(k, v)])
    ensures |values + more| == |(past + {k}) * stored'|
    ensures forall b :: b in past + {k} && b in stored' ==> Stored(mask, input, stored', values + more, b)
  {
    OneMore(past, stored', k);
    assert past * stored' == past * stored;
    BelowIsPast(Full(mask), past, todo, stored, k);
    RankBelow(stored, stored', k);
    forall b | b in past && b in stored'
      ensures Stored(mask, input, stored', values + more, b)
    {
      StoredStays(mask, input, stored, values, b, stored', more);
    }
  }

  lemma SidesEnd(ctx: Context, mask: Mask, input: seq<Card32>, past: Mask, stored: Mask, values: seq<Card32>, slot: nat,
                 s: Sides)
    requires Walking(ctx, mask, input, past, {}, stored, values, slot) && SidesOk(mask, input, past, s)
    ensures forall k :: SideAt(s, k) == Aside(mask, input, k)
  {
    assert past == Full(mask);
  }

  /** When the walk is over, the outcome is an encoding. */
  lemma WalkEnd(ctx: Context, mask: Mask, input: seq<Card32>, past: Mask, stored: Mask, values: seq<Card32>, slot: nat)
    requires Walking(ctx, mask, input, past, {}, stored, values, slot)
    ensures Encodes(mask, input, stored, values)
    ensures forall k :: k in Full(mask) ==> Verdict(ctx, k, Asked(mask, input, k)) == Success
  {
    assert past == Full(mask);
    assert past * stored == stored;
    forall k | k in stored
      ensures Rank(stored, k) < |values| && values[Rank(stored, k)] == Kept(k, Asked(mask, input, k))
    {
      assert Stored(mask, input, stored, values, k);
    }
  }

  lemma WalkStart(ctx: Context, mask: Mask, input: seq<Card32>)
    ensures Walking(ctx, mask, input, {}, Full(mask), Full(mask), [], 0)
  {
    assert {} * mask == {} && {} * Full(mask) == {};
    assert Full(mask) == set k | k in Full(mask) && (k in Full(mask) || !HeldAside(k, Asked(mask, input, k)));
  }

  lemma FullSize(mask: Mask)
    ensures |Full(mask)| <= |mask| + 1
  {
    if CW_OVERRIDE_REDIRECT in mask {
      assert Full(mask) == mask;
    }
  }

  /** There is room for the next value. */
  lemma Room(mask: Mask, past: Mask, todo: Mask, stored: Mask)
    requires Split(Full(mask), past, todo) && todo != {}
    ensures |past * stored| < |mask| + 1
  {
    CardGrows(past * stored, past);
    FullSize(mask);
    assert |past + todo| == |past| + |todo|;
  }

  /** The first attribute, lowest bit first, that is refused. */
  ghost predicate FirstRefused(ctx: Context, mask: Mask, input: seq<Card32>, k: nat) {
    && k in Full(mask) && Verdict(ctx, k, Asked(mask, input, k)) != Success
    && forall b :: b in Full(mask) && b < k ==> Verdict(ctx, b, Asked(mask, input, b)) == Success
  }

  /** ScreenSaverSetAttributes, the mask and value walk. On success the stored mask and values are an
      encoding that gives each kept attribute its value, with override-redirect forced True, and every
      cleared bit has its resource aside; otherwise the lowest refused attribute decides the error. */
  method SetAttributes(ctx: Context, mask: Mask, input: seq<Card32>) returns (status: Status, attr: Attr, count: nat)
    ensures fresh(attr)
    ensures |input| != |mask| ==> status == BadLength
    ensures status == Success ==>
              && count <= attr.values.Length == |input| + 1
              && Encodes(mask, input, attr.mask, attr.values[..count])
              && forall k :: SideAt(attr.HeldSides(), k) == Aside(mask, input, k)
    ensures |input| == |mask| ==>
              if forall k :: k in Full(mask) ==> Verdict(ctx, k, Asked(mask, input, k)) == Success
              then status == Success
              else exists k :: FirstRefused(ctx, mask, input, k) && status == Verdict(ctx, k, Asked(mask, input, k))
  {
    attr := new Attr(Full(mask), |input|);
    count := 0;
    if |input| != |mask| {
      return BadLength, attr, 0;
    }
    WalkStart(ctx, mask, input);
    var tmask := Full(mask);
    var slot := 0;
    ghost var past: Mask := {};
    assert attr.values[..0] == [];
    while tmask != {}
      invariant fresh(attr) && fresh(attr.values) && attr.values.Length == |input| + 1
      invariant Progress(ctx, mask, input, past, tmask, attr, slot, count)
      decreases |tmask|
    {
      var k := LowBit(tmask);
      status, slot, count := OneAttribute(ctx, mask, input, past, tmask, attr, slot, count, k);
      if status != Success {
        return;
      }
      past := past + {k};
      tmask := tmask - {k};
    }
    SidesEnd(ctx, mask, input, past, attr.mask, attr.values[..count], slot, attr.HeldSides());
    WalkEnd(ctx, mask, input, past, attr.mask, attr.values[..count], slot);
    status := Success;
  }

  /** The state of the walk, with the attribute record in it. */
  ghost predicate Progress(ctx: Context, mask: Mask, input: seq<Card32>, past: Mask, todo: Mask, attr: Attr,
                           slot: nat, count: nat)
    reads attr, attr.values
  {
    && count <= attr.values.Length
    && Walking(ctx, mask, input, past, todo, attr.mask, attr.values[..count], slot)
    && SidesOk(mask, input, past, attr.HeldSides())
  }

  /** The lowest undecided attribute: it is still in the mask, its value is in the slot the walk has come to, and
      there is room to keep it. */
  lemma Ready(ctx: Context, mask: Mask, input: seq<Card32>, past: Mask, todo: Mask, stored: Mask,
              values: seq<Card32>, slot: nat, k: nat)
    requires Walking(ctx, mask, input, past, todo, stored, values, slot) && |input| == |mask|
    requires k in todo && forall b :: b in todo ==> k <= b
    ensures |values| < |input| + 1 && k in stored && k in Full(mask)
    ensures if k in mask then slot < |input| && input[slot] == Asked(mask, input, k)
            else k == CW_OVERRIDE_REDIRECT && Asked(mask, input, k) == 0
  {
    Room(mask, past, todo, stored);
    BelowIsPast(Full(mask), past, todo, mask, k);
    assert k in past + todo;
    if k in mask {
      RankBound(mask, k);
    }
  }

  /** The body of the walk. An override-redirect that was not given takes no slot. */
  method OneAttribute(ctx: Context, mask: Mask, input: seq<Card32>, ghost past: Mask, ghost todo: Mask, attr: Attr,
                      slot: nat, count: nat, k: nat) returns (status: Status, slot': nat, count': nat)
    requires Progress(ctx, mask, input, past, todo, attr, slot, count)
    requires |input| == |mask| && attr.values.Length == |input| + 1
    requires k in todo && forall b :: b in todo ==> k <= b
    modifies attr, attr.values
    ensures if status == Success then Progress(ctx, mask, input, past + {k}, todo - {k}, attr, slot', count')
            else FirstRefused(ctx, mask, input, k) && status == Verdict(ctx, k, Asked(mask, input, k))
  {
    ghost var stored, values, sides := attr.mask, attr.values[..count], attr.HeldSides();
    Ready(ctx, mask, input, past, todo, stored, values, slot, k);
    slot' := slot;
    var v: Card32 := 0;
    if k in mask {
      v := input[slot];
      slot' := slot + 1;
    }
    status, count' := attr.TakeNext(ctx, mask, k, v, count);
    if status != Success {
      RefusedHere(ctx, mask, input, past, todo, stored, values, slot, k);
    } else {
      TakenHere(ctx, mask, input, past, todo, stored, values, sides, slot,
                k, attr.mask, ToKeep(k, v), attr.HeldSides());
    }
  }

  function ToKeep(k: nat, v: Card32): seq<Card32> {
    if HeldAside(k, v) then [] else [Kept(k, v)]
  }

  lemma TakenHere(ctx: Context, mask: Mask, input: seq<Card32>, past: Mask, todo: Mask, stored: Mask,
                  values: seq<Card32>,
                  sides: Sides, slot: nat, k: nat, stored': Mask, more: seq<Card32>, sides': Sides)
    requires Walking(ctx, mask, input, past, todo, stored, values, slot) && SidesOk(mask, input, past, sides)
    requires k in todo && (forall b :: b in todo ==> k <= b) && k in Full(mask)
    requires Verdict(ctx, k, Asked(mask, input, k)) == Success && SideTaken(sides, k, Asked(mask, input, k), sides')
    requires var v := Asked(mask, input, k);
             && stored' == stored - (if HeldAside(k, v) then {k} else {})
             && more == (if HeldAside(k, v) then [] else [Kept(k, v)])
    ensures SidesOk(mask, input, past + {k}, sides')
    ensures Walking(ctx, mask, input, past + {k}, todo - {k}, stored', values + more, slot + if k in mask then 1 else 0)
  {
    SidesMove(mask, input, past, sides, k, sides');
    WalkStep(ctx, mask, input, past, todo, stored, values, slot, k, stored', more);
  }

  lemma RefusedHere(ctx: Context, mask: Mask, input: seq<Card32>, past: Mask, todo: Mask, stored: Mask,
                    values: seq<Card32>, slot: nat, k: nat)
    requires Walking(ctx, mask, input, past, todo, stored, values, slot)
    requires k in todo && (forall b :: b in todo ==> k <= b)
    requires Verdict(ctx, k, Asked(mask, input, k)) != Success
    ensures FirstRefused(ctx, mask, input, k)
  {
    forall b | b in Full(mask) && b < k
      ensures Verdict(ctx, b, Asked(mask, input, b)) == Success
    {
      assert b in past + todo;
    }
  }
}
