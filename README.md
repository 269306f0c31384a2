# assdraw-rs integer core, modelled in Dafny

assdraw-rs is an editor for ASS subtitle vector drawings. This project
models the integer geometry and bookkeeping underneath its rasterizer and
drawing reader, and proves properties of them. It covers:

- the halfplane line segment of the polyline rasterizer, with its moves,
  splits and side tests (`polyline.dfy`);
- the outline store with its bit-encoded segment tags (`outline.dfy`);
- the fixed-point `Vector` operators, the bounding `Rect` and the path
  segments of the drawing code (`ass_outline.dfy`);
- `align` (`utils.dfy`), and the glyph bitmap's stride and size
  computation and deep copy (`bitmap.dfy`);
- the fixed-capacity stack over a borrowed slice (`weirdvec.dfy`);
- the editor's undo stack (`undo.dfy`);
- the generic two-component `Point` (`point.dfy`);
- the old drawing-command reader: `strtod`, `tokenize_drawing`,
  `add_curve` and `parse_drawing` (`drawing_old.dfy`).

Rust machine integers are ranges of mathematical integers. Rust's own
operators are defined where they differ from Dafny's (`ints.dfy`):
truncating `/`, arithmetic `>>`, `saturating_abs`, and `as usize` of a
negative `i32`. A Rust panic becomes a precondition. The exception is
`Bitmap::new`, whose rejected inputs are themselves worth stating, so there
the panics are the error cases of a `Result`. Code that updates state in
place (the undo stack, the bounded stack, the outline store, `Rect`, the
compound assignment operators, and the loops of `strtod`,
`tokenize_drawing`, `parse_drawing`, `add_curve` and `Clone`) is written
imperatively. Each such method is proved against a functional
specification, and the properties are proved about that specification.

## Model

| member | source | states |
|---|---|---|
| Ints.AsUsize | src/ass/bitmap.rs:91 | `x as usize` of an `i32` keeps a non-negative value and sends a negative one to `2^64 + x`, which is above `i64::MAX` |
| Ints.TruncDiv | src/ass_outline.rs:118-123 | Rust's signed `/`: the quotient is negative only when the operands' signs differ, and positive only when they agree |
| Ints.TruncDivMagnitude | src/ass_outline.rs:118-123 | the magnitude of the truncated quotient is the quotient of the magnitudes |
| Ints.TruncDivRemainder | src/ass_outline.rs:118-123 | the remainder `a - b*q` is smaller than `b` in magnitude and has the sign of `a`, so the quotient rounds toward zero |
| Ints.TruncDivI32 | src/ass_outline.rs:118-123 | an `i32` quotient stays in the `i32` range, except `i32::MIN / -1` |
| Ints.ShiftRight | src/ass_outline.rs:100-105 | an arithmetic `>>` keeps the sign and never grows the magnitude |
| Ints.ShiftRightFloor | src/ass_outline.rs:100-105 | `a >> k` is the floor of `a / 2^k` |
| Ints.ShiftRightTwice | src/ass_outline.rs:100-105 | shifting by `j` and then by `k` is the same as shifting by `j + k` |
| Ints.SaturatingAbs | src/ass/outline.rs:101 | `saturating_abs` is the magnitude, except that `i32::MIN` maps to `i32::MAX` |
| Ints.I64Mul | src/ass/polyline.rs:38 | the widening product of two `i32` values is their exact product and always fits in `i64` |
| AssOutline.ShrFloor | src/ass_outline.rs:97-106 | each component of `v >> k` is the floor of that component divided by `2^k` |
| AssOutline.ShrTwice | src/ass_outline.rs:97-106 | two vector shifts are one shift by the sum of the amounts |
| AssOutline.Splat | src/ass_outline.rs:40-71 | the vector `(s, s)` that the scalar operators combine with; `ScalarIsSplat` proves they equal the vector operators on it |
| AssOutline.Add | src/ass_outline.rs:29-38 | `impl Add`: componentwise sum, defined only when neither component overflows `i32`; `AddSubRoundTrip` proves `Sub` undoes it |
| AssOutline.AddScalar | src/ass_outline.rs:40-49 | `impl Add<i32>`: `s` added to both components; `ScalarIsSplat` proves it is `Add` with `(s, s)` |
| AssOutline.Sub | src/ass_outline.rs:51-60 | `impl Sub`: componentwise difference, defined only without overflow; `AddSubRoundTrip` proves `Add` undoes it |
| AssOutline.SubScalar | src/ass_outline.rs:62-71 | `impl Sub<i32>`: `s` subtracted from both components; `ScalarIsSplat` proves it is `Sub` with `(s, s)` |
| AssOutline.Shr | src/ass_outline.rs:97-106 | `impl Shr<i32>`: arithmetic shift of both components by `0 <= k < 32`; `ShrFloor` and `ShrTwice` state its meaning |
| AssOutline.Div | src/ass_outline.rs:115-124 | `impl Div<i32>`: truncating division of both components, excluding the panics (`s == 0`, `i32::MIN / -1`); `DivTruncates` states its meaning |
| AssOutline.Abs | src/ass_outline.rs:12-17 | each component of `abs` is non-negative and equals the input component or its negation |
| AssOutline.CheckedAbs | src/ass_outline.rs:21-26 | `checked_abs` is `None` exactly when some component is `i32::MIN`, and `Some(abs(v))` otherwise |
| AssOutline.AddSubRoundTrip | src/ass_outline.rs:29-60 | vector `+` and `-` undo each other whenever no component overflows |
| AssOutline.ScalarIsSplat | src/ass_outline.rs:40-71 | `v + s` and `v - s` with a scalar are `v + (s, s)` and `v - (s, s)` |
| AssOutline.DivTruncates | src/ass_outline.rs:115-124 | vector `/ s` leaves, in each component, a remainder smaller than `s` in magnitude and with the dividend's sign |
| AssOutline.VectorCell.AddAssignScalar | src/ass_outline.rs:73-79 | `v += s` leaves `v` equal to `old(v) + s` |
| AssOutline.VectorCell.AddAssign | src/ass_outline.rs:81-87 | `v += w` leaves `v` equal to `old(v) + w` |
| AssOutline.VectorCell.SubAssign | src/ass_outline.rs:89-95 | `v -= w` leaves `v` equal to `old(v) - w` |
| AssOutline.VectorCell.ShrAssign | src/ass_outline.rs:108-113 | `v >>= k` leaves `v` equal to `old(v) >> k` |
| AssOutline.Rect.constructor | src/ass_outline.rs:132-138 | the derived default `Rect` has all four bounds 0 |
| AssOutline.Rect.Reset | src/ass_outline.rs:141-147 | `reset` sets the minima to `i32::MAX` and the maxima to `i32::MIN`, so the box contains no point |
| AssOutline.Rect.Update | src/ass_outline.rs:149-155 | `update` takes the min of the minima and the max of the maxima; it loses no point it contained and covers both given corners |
| AssOutline.WidenAllCovers | src/ass_outline.rs:149-155 | updating with a list of points, one by one, covers every point of the list and keeps everything covered before |
| AssOutline.WidenAllTight | src/ass_outline.rs:149-155 | after updating with a list of points, each bound is the old bound or a coordinate of one of the points |
| AssOutline.ResetThenUpdate | src/ass_outline.rs:141-155 | `reset` then `update(p, p)` gives the box that contains exactly the point `p` |
| Outline.Segment.Tag | src/ass/outline.rs:47-59 | the `repr(u8)` discriminants are 1 to 7 |
| Outline.Segment.OutlineCount | src/ass/outline.rs:62-67 | `tag & 3` is 1 for lines, 2 for quadratics and 3 for cubics (with or without the end bit), and 0 for `ContourEnd` |
| Outline.Segment.IsEnd | src/ass/outline.rs:69-72 | `tag & 4 != 0` holds exactly for `ContourEnd` and the three `*End` variants |
| Outline.Segment.AsEnd | src/ass/outline.rs:74-82 | `as_end` always gives an end tag with the same point count; it adds 4 to a base tag's discriminant and fixes every other tag |
| Outline.AsEndIdempotent | src/ass/outline.rs:74-82 | `as_end` applied twice is `as_end` applied once |
| Outline.CoordInRange | src/ass/outline.rs:100-103 | the saturating-magnitude test of `add_point` accepts exactly the coordinates in `-MAX_COORD ..= MAX_COORD`, with `MAX_COORD = 2^28 - 1` |
| Outline.Outline.constructor | src/ass/outline.rs:93-98 | a new outline has no points and no tags |
| Outline.Outline.AddPoint | src/ass/outline.rs:100-109 | an out-of-range point gives `Err` and changes nothing; otherwise the point is appended, followed by its tag when there is one, and every stored point stays in range |
| Outline.Outline.AddSegment | src/ass/outline.rs:111-113 | appends exactly one tag and leaves the points alone |
| Outline.Outline.CloseContour | src/ass/outline.rs:115-122 | replaces only the last tag, with its `as_end` form |
| Outline.Outline.UpdateCBox | src/ass/outline.rs:124-128 | the box after the loop is the old box widened by every stored point in order, so it contains all of them and everything it contained before; from a reset box and at least one point, it lies within `-MAX_COORD ..= MAX_COORD`, because every stored point passed the `add_point` test |
| Utils.Align | src/ass/utils.rs:2-8 | when rounding up would overflow `usize`, `align` returns `s` unchanged |
| Utils.AlignRoundsUp | src/ass/utils.rs:3-6 | for an alignment `2^k`, `align` returns the least multiple of `2^k` that is at least `s`, unless that overflows, in which case it returns `s` |
| Utils.MaskIsHighBits | src/ass/utils.rs:6 | `v & !(2^k - 1)` clears the low `k` bits of `v` |
| Utils.AlignIdempotent | src/ass/utils.rs:6 | aligning twice is aligning once |
| Bitmap.Alignment | src/ass/bitmap.rs:90 | `1 << align_order` is `2^align_order` and lies in `1 ..= 2^63` |
| Bitmap.StrideLimit | src/ass/bitmap.rs:92 | the stride guard's bound `(i32::MAX - 32) / max(h, 1)` is at most `i32::MAX - 32` |
| Bitmap.Stride | src/ass/bitmap.rs:90-91 | `align(1 << align_order, w as usize)`, the row stride; `StrideOk` states what an accepted stride is |
| Bitmap.Layout | src/ass/bitmap.rs:87-95 | the stride and size `new` computes, or which of its four panics fires, checked in the source's order; `LayoutOk` states what a success means and `New` is proved against it |
| Bitmap.LayoutOk | src/ass/bitmap.rs:87-95 | whenever `new` returns: `zero` holds and `w >= 0`; the stride is the least multiple of the alignment that holds `w` bytes; the size is `stride * h + 32` and at most `i32::MAX`; a negative `h` gets through only with a zero stride |
| Bitmap.StrideOk | src/ass/bitmap.rs:90-92 | a stride the guard accepts comes from a width `w >= 0`, is a multiple of the alignment, and lies in `w .. w + alignment` |
| Bitmap.SizeOk | src/ass/bitmap.rs:92-94 | the stride guard makes `stride * h + 32` at most `i32::MAX`, and rules out a negative `h` with a positive stride |
| Bitmap.Bitmap.Init | src/ass/bitmap.rs:97-105 | the struct literal of `new`: `left` and `top` are 0, and the other fields are the given ones |
| Bitmap.Bitmap.Clone | src/ass/bitmap.rs:109-115 | the clone is a new bitmap with the same engine, `w`, `h` and stride, and a new buffer holding the same bytes |
| Bitmap.New | src/ass/bitmap.rs:87-106 | `new` fails exactly when the layout computation fails, with its reason; on success the bitmap is new, has the computed stride and size, and every buffer byte is 0 |
| WeirdVec.BorrowVec.Capacity | src/ass/utils/weirdvec.rs:88-90 | the capacity is the slice length and is never below `len` |
| WeirdVec.BorrowVec.View | src/ass/utils/weirdvec.rs:71-76 | `deref` is the first `len` slots of the slice |
| WeirdVec.BorrowVec.FromEmpty | src/ass/utils/weirdvec.rs:113-115 | `from_empty` gives an empty stack over the whole slice |
| WeirdVec.BorrowVec.Push | src/ass/utils/weirdvec.rs:92-100 | a full stack gives back `Err(val)` and nothing changes; otherwise `val` goes into slot `len`, `len` grows by one, the view gains `val` at its end, and no other slot changes |
| WeirdVec.BorrowVec.Pop | src/ass/utils/weirdvec.rs:101-109 | an empty stack gives `None`; otherwise the result is the top element, `len` shrinks by one and the view loses its last element |
| WeirdVec.BorrowVec.Set | src/ass/utils/weirdvec.rs:78-82 | a write through `deref_mut` changes exactly that element of the view |
| WeirdVec.BorrowVec.Split | src/ass/utils/weirdvec.rs:117-120 | `split` gives the elements as a slice, and an empty stack over the spare room after them; the two do not overlap |
| WeirdVec.PushThenPop | src/ass/utils/weirdvec.rs:92-109 | on a stack that is not full, a push then a pop gives back the pushed value and restores the stack |
| WeirdVec.Vec.Len | src/ass/utils/weirdvec.rs:26-28 | the length of a `Vec` is its number of elements |
| WeirdVec.Vec.Push | src/ass/utils/weirdvec.rs:33-36 | `push` on a `Vec` always returns `Ok` and appends |
| WeirdVec.Vec.Pop | src/ass/utils/weirdvec.rs:37-39 | `pop` on a `Vec` gives `None` when it is empty, and otherwise removes and returns the last element |
| Undo.UndoStack.constructor | src/undo.rs:11-17 | a new stack holds one state, at index 0, with no edit; neither undo nor redo is possible |
| Undo.UndoStack.CanUndo | src/undo.rs:20-22 | `can_undo`: an earlier state exists; `Undo` moves exactly when it holds |
| Undo.UndoStack.CanRedo | src/undo.rs:32-34 | `can_redo`: a later state exists; `Redo` moves exactly when it holds, and `PushState` and `Commit` leave it false |
| Undo.UndoStack.Current | src/undo.rs:63-68 | `deref` is the edit in progress if there is one, else the current history entry |
| Undo.UndoStack.Undo | src/undo.rs:24-29 | with an earlier state, `undo` steps back and drops the edit; otherwise it changes nothing; the history is untouched |
| Undo.UndoStack.Redo | src/undo.rs:36-41 | with a later state, `redo` steps forward and drops the edit; otherwise it changes nothing |
| Undo.UndoStack.PushState | src/undo.rs:43-48 | `push_state` cuts the history after the current state, appends the new state and makes it current, with no edit and nothing to redo |
| Undo.UndoStack.Commit | src/undo.rs:50-55 | `commit` without an edit changes nothing; with an edit, it becomes a new last history entry and the redo branch is gone; the view is unchanged either way |
| Undo.UndoStack.DerefMut | src/undo.rs:70-76 | the first mutable access copies the current state into the edit; the history and index are untouched |
| Undo.UndoStack.WriteActive | src/undo.rs:70-76 | a write through `deref_mut` changes only the edit |
| Undo.UndoStack.Edit | src/undo.rs:70-76 | an edit through `deref_mut` applies to the current view and leaves the history alone |
| Undo.ScenarioSetup | src/undo.rs:89-95 | the unit test's two committed edits on 3 give the history `[3, 8, 11]` at index 2 |
| Undo.ScenarioWalk | src/undo.rs:96-115 | the test's undo/redo walk observes 11, 8, 11, 11, 3, 3, 8, stopping at both ends |
| Undo.ScenarioEdits | src/undo.rs:116-126 | the test's last part observes -2, 3, 8, -2, -2: an undo discards an uncommitted edit, and a commit discards the redo branch |
| Undo.UndoScenario | src/undo.rs:82-127 | the whole unit test observes the twelve values it asserts, in order |
| Point.ScalarIsSplat | src/point.rs:93-124 | a scalar operator is the binary operator applied to the point `(s, s)` |
| Point.Zip | src/point.rs:93-104 | the binary operators on `Self`: the element operator applied to matching components; `ZipCommutes` is proved about it |
| Point.ZipScalar | src/point.rs:105-116 | the binary operators on `T`: each component combined with the same scalar; `ScalarIsSplat` relates it to `Zip` |
| Point.Map | src/point.rs:22-36 | `from`, `into`, `abs` and `neg`: a componentwise map; `MapRoundTrip` and `MapIdempotent` are proved about it |
| Point.FromTuple | src/point.rs:65-70 | `From<(T, T)>`: the tuple's parts as `x` and `y`; `TupleRoundTrip` proves it inverse to `ToTuple` |
| Point.ToTuple | src/point.rs:79-84 | `From<Point<T>> for (T, T)`; inverse to `FromTuple` by `TupleRoundTrip` |
| Point.FromArray | src/point.rs:72-77 | `From<[T; 2]>`; inverse to `ToArray` by `ArrayRoundTrip` |
| Point.MapRoundTrip | src/point.rs:22-36 | `from` then `into` (or any componentwise map and its inverse) gives back the point |
| Point.MapIdempotent | src/point.rs:56-62 | `abs` on points is idempotent when it is on components |
| Point.ZipCommutes | src/point.rs:93-104 | a binary operator on points commutes when it commutes on components |
| Point.ToArray | src/point.rs:86-91 | the array conversion gives two elements |
| Point.TupleRoundTrip | src/point.rs:65-84 | the tuple conversions are inverse to each other |
| Point.ArrayRoundTrip | src/point.rs:72-91 | the array conversions are inverse to each other |
| Point.TryConvert | src/point.rs:38-54 | `try_from` succeeds exactly when both components convert, giving the converted pair; otherwise it gives the error of `x` if `x` failed, else that of `y` |
| Point.TryConvertTotal | src/point.rs:38-54 | a conversion that never fails gives the componentwise map |
| Point.MutPoint.Assign | src/point.rs:126-134 | a compound operator with a point leaves `self` equal to the binary operator's result |
| Point.MutPoint.AssignScalar | src/point.rs:135-151 | a compound operator with a scalar leaves `self` equal to the scalar operator's result, which is the operator with `(s, s)` |
| Polyline.Segment.CondUlDr | src/ass/polyline.rs:144-150 | `cond_uldr` returns its first argument exactly when `UlDr` is set |
| Polyline.Segment.MoveX | src/ass/polyline.rs:34-44 | `move_x` moves both x bounds by `-x` and clamps the left one at 0, subtracts `a*x` from `c`, and keeps every other field; it drops `ExactTop` exactly when the new `x_min` is 0 and both `ExactLeft` and `UlDr` are set |
| Polyline.Segment.MoveY | src/ass/polyline.rs:46-56 | the vertical counterpart, with `b*y`, dropping `ExactLeft` |
| Polyline.Segment.SplitHorz | src/ass/polyline.rs:58-75 | the first half is the segment cut at `x_max = x`; the second has `x_min = 0`, `x_max - x` and `c - a*x`; their flag sets are the input's minus `ExactTop` and `ExactBottom`, swapped for `UlDr`, plus `ExactRight` and `ExactLeft` |
| Polyline.Segment.SplitVert | src/ass/polyline.rs:77-94 | as written: the first half ends at `y_max = y`; the second has `y_min = 0`, `y_max - y` and `c - a*y`; the flags mirror `split_horz` |
| Polyline.Segment.SplitVertCorrected | src/ass/polyline.rs:77-94 | the same split with the second half's `c` reduced by `b*y` |
| Polyline.Segment.CheckLeft | src/ass/polyline.rs:96-106 | with `ExactLeft` the result is exactly `x_min >= x`; otherwise it is the sign test `c - a*x - b*y >= 0` at the `cond_uldr(y_min, y_max)` corner, negated when `a < 0` |
| Polyline.Segment.CheckRight | src/ass/polyline.rs:108-118 | with `ExactRight` exactly `x_max <= x`; otherwise the sign test at `cond_uldr(y_max, y_min)`, negated when `a > 0` |
| Polyline.Segment.CheckTop | src/ass/polyline.rs:120-130 | with `ExactTop` exactly `y_min >= y`; otherwise the sign test at `cond_uldr(x_min, x_max)`, negated when `b < 0` |
| Polyline.Segment.CheckBottom | src/ass/polyline.rs:132-142 | with `ExactBottom` exactly `y_max <= y`; otherwise the sign test at `cond_uldr(x_max, x_min)`, negated when `b > 0` |
| PolylineFacts.MoveXTranslates | src/ass/polyline.rs:34-38 | after `move_x(x)` the plane equation at `X - x` equals the original's at `X` |
| PolylineFacts.MoveYTranslates | src/ass/polyline.rs:46-50 | after `move_y(y)` the plane equation at `Y - y` equals the original's at `Y` |
| PolylineFacts.MoveXFlags | src/ass/polyline.rs:40-43 | `move_x` keeps `Dn` and `UlDr` and removes at most `ExactTop` |
| PolylineFacts.MoveXKeepsChecks | src/ass/polyline.rs:34-44 | after `move_x(x)`, `check_right` at `px - x` answers as before at `px`, and so does `check_left` unless an exact left edge was clamped |
| PolylineFacts.MoveYKeepsChecks | src/ass/polyline.rs:46-56 | the same for `move_y` with `check_bottom` and `check_top` |
| PolylineFacts.CheckLeftMonotone | src/ass/polyline.rs:96-106 | lying right of `X = x2` implies lying right of every `X = x1 <= x2` |
| PolylineFacts.CheckRightMonotone | src/ass/polyline.rs:108-118 | lying left of `X = x1` implies lying left of every `X = x2 >= x1` |
| PolylineFacts.CheckTopMonotone | src/ass/polyline.rs:120-130 | lying below `Y = y2` implies lying below every `Y = y1 <= y2` |
| PolylineFacts.CheckBottomMonotone | src/ass/polyline.rs:132-142 | lying above `Y = y1` implies lying above every `Y = y2 >= y1` |
| PolylineFacts.CheckLeftAtCorner | src/ass/polyline.rs:96-106 | when the line passes through the corner the sign test uses, the sign test gives exactly what the `ExactLeft` shortcut gives |
| PolylineFacts.CheckRightAtCorner | src/ass/polyline.rs:108-118 | the same for `ExactRight` |
| PolylineFacts.CheckTopAtCorner | src/ass/polyline.rs:120-130 | the same for `ExactTop` |
| PolylineFacts.CheckBottomAtCorner | src/ass/polyline.rs:132-142 | the same for `ExactBottom` |
| PolylineFacts.SplitHorzHalves | src/ass/polyline.rs:58-75 | the first half keeps the plane and the second is the plane translated by `x`; both keep `Dn` and `UlDr`; the exact edges the split inserts make `check_right(x)` of the first half and `check_left(0)` of the second true |
| PolylineFacts.SplitHorzNextIsMoveX | src/ass/polyline.rs:58-75 | the second half of `split_horz` is `move_x(x)`, except for the flags |
| PolylineFacts.SplitVertCorrectedHalves | src/ass/polyline.rs:77-94 | in the corrected `split_vert`, the first half keeps the plane and the second is the plane translated by `y`; both keep `Dn` and `UlDr`; the inserted exact edges make `check_bottom(y)` of the first half and `check_top(0)` of the second true |
| PolylineFacts.SplitVertCorrectedNextIsMoveY | src/ass/polyline.rs:77-94 | the second half of the corrected `split_vert` is `move_y(y)`, except for the flags |
| PolylineFacts.SplitVertPlaneOffset | src/ass/polyline.rs:81 | `split_vert` as written shifts the second half's plane by `(b - a)*y` |
| PolylineFacts.SplitVertMisplacesPlane | src/ass/polyline.rs:81 | on the line `X = 0` in a 10 by 10 box, cut at `y = 5`, the input lies right of `X = -3` but the lower half from `split_vert` as written does not |
| PolylineFacts.SplitVertCorrectedKeepsSide | src/ass/polyline.rs:81 | on the same input, the corrected lower half still lies right of `X = -3` |
| DrawingOld.ScanEnd | src/drawing_old.rs:25-41 | the scan of `strtod` ends between its start and the end of the input |
| DrawingOld.ScanIsLongestNumber | src/drawing_old.rs:25-41 | the scanned prefix is made of digits, a leading `-` and at most one `.`, and it is the longest such prefix |
| DrawingOld.StrtodSpec | src/drawing_old.rs:24-54 | what `strtod` computes: the parse of the longest number-shaped prefix and the index after it, or nothing with the position kept; `Strtod` is proved against it |
| DrawingOld.StrtodAdvances | src/drawing_old.rs:42-53 | on success, `strtod` moves forward over exactly the scanned prefix (never zero bytes), and the value is the parse of that prefix |
| DrawingOld.Strtod | src/drawing_old.rs:24-54 | the scanning loop computes the scan specification: the parsed value and the end of the prefix, or failure with the position unchanged |
| DrawingOld.LetterCommand | src/drawing_old.rs:134-143 | `m`, `n`, `l`, `b` and `s` select a command; any other byte keeps the current one |
| DrawingOld.CopySpline | src/drawing_old.rs:113-120 | `n` rounds of copying append `n` tokens, advance the start by `n`, and keep the earlier tokens |
| DrawingOld.CopySplineCopies | src/drawing_old.rs:113-120 | each appended token is a `BSpline` token at the point of the token that the start index names in its round |
| DrawingOld.TokBranch | src/drawing_old.rs:103-150 | a non-space step consumes at least one byte, keeps the start index valid, and only appends tokens |
| DrawingOld.EmitToken | src/drawing_old.rs:152-159 | the push check consumes nothing, keeps the start index valid, and only appends tokens |
| DrawingOld.TokStep | src/drawing_old.rs:97-160 | every loop turn consumes at least one byte and only appends tokens, so the loop terminates |
| DrawingOld.TokRun | src/drawing_old.rs:97-160 | the loop ends at the end of the text, having only appended tokens |
| DrawingOld.Tokenize | src/drawing_old.rs:87-163 | the tokens `tokenize_drawing` returns, as the run of the loop specification from the initial state; `TokenizeDrawing` is proved against it |
| DrawingOld.TokenNeedsXY | src/drawing_old.rs:152-159 | outside the `c` branch, a step pushes a token exactly when it reads `y` while a command is active; the token carries the latest command and the completed point |
| DrawingOld.NonCoordinateResets | src/drawing_old.rs:133-150 | a step that reads no coordinate resets the coordinate status and keeps the point; an unknown byte changes nothing else |
| DrawingOld.SplineClose | src/drawing_old.rs:104-122 | `c` with an open B-spline appends three `BSpline` tokens copying the points at `spline_start`, `+1` and `+2` when the two tokens from `spline_start` are B-spline tokens, and otherwise leaves the tokens alone |
| DrawingOld.FinishSpline | src/drawing_old.rs:105-121 | the two loops of the `c` branch compute the check and the three rounds of copying |
| DrawingOld.ReadItem | src/drawing_old.rs:103-150 | the loop body after the space check computes the branch specification |
| DrawingOld.PushToken | src/drawing_old.rs:152-159 | the push at the end of the loop body computes the push specification |
| DrawingOld.TokenizeDrawing | src/drawing_old.rs:87-163 | the loop returns the tokens of the tokenizer specification |
| DrawingOld.BSplineCoordinate | src/drawing_old.rs:66-74 | when no division rounds, the four converted coordinates are `(a + 4b + c)/6`, `(2b + c)/3`, `(b + 2c)/3` and `(b + 4c + d)/6` |
| DrawingOld.SplineAxisX | src/drawing_old.rs:66-74 | the same for the x coordinates of the converted points |
| DrawingOld.SplineAxisY | src/drawing_old.rs:66-74 | the same for the y coordinates |
| DrawingOld.Third | src/drawing_old.rs:67-69 | `(b - a) / 3` with truncating division, which stays within the coordinate limit |
| DrawingOld.Corner | src/drawing_old.rs:70-71 | `p + ((d1 - d0) >> 1)`, the end points of the converted B-spline |
| DrawingOld.SplineBezier | src/drawing_old.rs:66-75 | the B-spline branch of `add_curve`; `CurveIsUniformBSpline` proves it is the uniform cubic B-spline to Bezier conversion whenever nothing rounds |
| DrawingOld.CurveIsUniformBSpline | src/drawing_old.rs:61-77 | the B-spline conversion of `add_curve` is the uniform cubic B-spline to Bezier conversion whenever the control points make it exact |
| DrawingOld.WidenByPoints | src/drawing_old.rs:62-64 | the box after the loop is the old box widened by the four points in order |
| DrawingOld.SplineToBezier | src/drawing_old.rs:66-75 | the in-place rewrite of `p` gives the converted B-spline's control points |
| DrawingOld.AddCurve | src/drawing_old.rs:61-78 | appends exactly one cubic (the points as given, or converted for a B-spline) and widens the box by all four input points |
| DrawingOld.ParseStep | src/drawing_old.rs:175-216 | each loop turn consumes at least one token (a complete curve consumes three) |
| DrawingOld.ParseRun | src/drawing_old.rs:175-216 | the loop consumes every token |
| DrawingOld.CloseShape | src/drawing_old.rs:183-184 | the closing line from the pen back to the shape start, appended only when a shape is open; `CloseShapeCloses` proves the result holds closed shapes only |
| DrawingOld.ParseSpec | src/drawing_old.rs:166-223 | what `parse_drawing` returns: the box and the segments after the loop and the final close; `ParseTokens` and `ParseDrawing` are proved against it, and `ParseClosesShapes` about it |
| DrawingOld.ParseToken | src/drawing_old.rs:176-215 | the loop body computes the step specification, updating the box in place |
| DrawingOld.ParseTokens | src/drawing_old.rs:167-222 | the loop and the final close compute the parse specification's segments and box |
| DrawingOld.ParseDrawing | src/drawing_old.rs:166-223 | `parse_drawing` returns the parse specification of the tokenizer's tokens |
| DrawingOld.CloseShapeCloses | src/drawing_old.rs:183-185 | closing the open shape, if there is one, leaves only closed shapes |
| DrawingOld.DrawKeepsShapes | src/drawing_old.rs:189-207 | a segment drawn from the pen extends the open shape, or opens one at the pen |
| DrawingOld.ParseStepKeepsShapes | src/drawing_old.rs:176-215 | without `n` and B-spline tokens, every loop turn keeps the segments as closed shapes followed by one open chain from the shape start to the pen |
| DrawingOld.ParseRunKeepsShapes | src/drawing_old.rs:175-216 | the whole loop keeps that invariant |
| DrawingOld.ParseClosesShapes | src/drawing_old.rs:166-223 | without `n` and B-spline tokens, `parse_drawing` emits only closed shapes: runs of segments, each starting where the previous one ended and ending at its own start |

## Left out

- Graphics, windowing and UI code is not part of this model. Neither are the `BitmapEngine` fill, blend, blur and stripe primitives, which are declarations without bodies.
- `str::parse::<f64>` in `strtod`, and `double_to_d6`, are floating point. They are the function parameters `parse` and `toD6`. The only assumption is that the empty string does not parse, which is what `str::parse` does. The UTF-8 check always succeeds on the scanned bytes, which are ASCII.
- DrawingOld.ParseDrawing: when the drawing has a B-spline token, requires every token coordinate to be within `COORD_LIMIT = 2^29 - 1` (the pen, set by any earlier token, is the curve's first point). This is a simple sufficient bound under which the B-spline arithmetic of `add_curve` cannot overflow `i32`; the source only overflows (a panic in debug builds) on some B-spline inputs beyond it. Drawings without a B-spline carry no bound.
- DrawingOld.ParseTokens, DrawingOld.ParseToken, DrawingOld.ParseStep, DrawingOld.ParseRun, DrawingOld.ParseSpec: carry the same conditional bound.
- DrawingOld.AddCurve: requires the four points within the bound only for a B-spline; a Bezier curve does no arithmetic and carries none.
- DrawingOld.ParseClosesShapes: covers only token streams without `n` (move without closing) and without B-spline tokens. `n` moves the pen without closing the shape, so the invariant does not hold for it. B-spline curves end at a converted point rather than at the next pen, so their chains are not joined end to start.
- The `multipeek` lookahead of `parse_drawing` is indexing into the token sequence.
- Bitmap.New: requires `0 <= align_order < 64`, because `1 << align_order` overflows outside that range. An allocation failure is modelled only when the layout size exceeds `isize::MAX`; running out of memory is not modelled. Of `BitmapEngine`, only `align_order` is used.
- `AlignedBox` is an array; its alignment in memory is not modelled.
- Polyline.Segment.MoveX: `move_x` and `move_y` update the segment in place through `&mut self`; here they are functions that return the moved value. `Segment` is a `Copy` value, so nothing else observes the update.
- The polyline operations, the `Vector` operators and `abs` require that no `i32` or `i64` intermediate overflows, since Rust panics on overflow in debug builds.
- The `Point` operators are generated by macros from the element type's operator. Here that operator is a total function parameter, so the element type's own panics (overflow, division by zero) are not modelled.
- `DVector` and `DRect` hold `f64` values and are not modelled. Neither are the `Default` implementations of `UndoStack` and `Segment`.
- Outline.Outline.constructor: the capacity hints of `Vec::with_capacity` only reserve memory and are not modelled. The same goes for `capacity` of a `Vec` in `GenericVec`, which depends on the allocator.
- src/ass/outline.rs declares its own `Vector` and `Rect`, identical to those of src/ass_outline.rs. The model uses one definition for both.
- `clone_mut`, `iter`, `iter_mut` and the `IntoIterator` implementations of `BorrowVec` are not modelled. They only re-borrow or walk the view.
- WeirdVec.BorrowVec.Split: a borrowed `&mut [T]` is a window `lo .. hi` of an array. Exclusive borrowing is not modelled; instead, `split` proves that the two windows are adjacent and disjoint.
- Undo.UndoScenario: the unit test's `Foo { a }` is reduced to its integer field.
- Outline.Outline.CloseContour: the code panics when there is no tag or the last tag already ends a contour; the model makes both cases preconditions.

## Findings

| source | as written | input that shows it | evidently intended | confidence | as-written member | corrected member |
|---|---|---|---|---|---|---|
| src/ass/polyline.rs:81 | `split_vert` moves the second half's plane with `next.c -= i64_mul(self.a, y)` | the line `X = 0` (`a = 1`, `b = 0`, `c = 0`, box 0..10 by 0..10) cut at `y = 5`: the lower half gets `c = -5` and no longer lies right of `X = -3` | `next.c -= i64_mul(self.b, y)`, the vertical counterpart of `split_horz`, which translates the plane by `b*y` | not executed | PolylineFacts.SplitVertMisplacesPlane | PolylineFacts.SplitVertCorrectedHalves |
