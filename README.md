# Move generation of a two-player chess variant

This project models the move rules of a small chess variant in which a player
may move twice in one turn. The rules live in one TypeScript module,
`src/lib/game.ts`. It covers:

- **Integer vectors.** These name squares of an 8x8 board. `add`, `addVec` and `equals` are modelled in `Geometry`.
- **Ray casting.** `repeat` walks from a square in one direction. `repeatSymmetric` walks in the eight sign and axis-swap variants of a direction, then removes duplicate squares with `uniqueVectors`. These are modelled in `VectorSeqs` and `Rays`.
- **The piece catalogue.** King, rook, knight, bishop, queen and pawn each map a square to a list of target squares. This is modelled in `Pieces`.
- **Double moves.** `doubleMoves` applies a piece's rule twice. It drops the squares one application already reaches, and it drops the starting square. This is modelled in `Doubles`.

The rules ignore every other piece: nothing blocks a ray and nothing is captured.
The model keeps three quirks of the code:

- The first step of a ray is always listed, even when it is off the board.
- Pawn moves are never checked against the board.
- Double moves therefore also expand from off-board first steps.

The imperative parts are Dafny methods with loops: the do-while of `repeat`, the
scans of `uniqueVectors` and `repeatSymmetric`, and the filtering loop of
`doubleMoves`. Each method is proved equal to a recursive specification function
(`Ray`, `Unique`, `SymmetricRays`, `Without`, `Double`). The lemmas then state what those
functions mean: which squares each piece reaches, that no list repeats a square,
that a piece never stays in place, and the shape of a king's double moves.

A ray's `maxN` is either `Finite(n)` or `Unbounded`; the code passes `Infinity`
for the unbounded case. An unbounded ray ends only because it leaves the board.
So an unbounded ray needs a non-zero step (`Rays.Walks`). The code would loop
forever on a zero step from a board square.

## Model

| member | source | states |
|---|---|---|
| Geometry.Vector.Add | src/lib/game.ts:3-5 | the result differs from the receiver by exactly (dx, dy) in each coordinate |
| Geometry.Vector.AddVec | src/lib/game.ts:6-8 | adding a vector is adding its coordinates, and the result does not depend on which vector is the receiver |
| Geometry.Vector.Equals | src/lib/game.ts:9-11 | coordinate comparison holds exactly when the two vectors are the same value |
| Geometry.InBounds | src/lib/game.ts:20 | holds exactly when the vector is one of the 64 squares `0 <= x < 8`, `0 <= y < 8` |
| Geometry.AlongShift | src/lib/game.ts:24-28 | k steps taken after the first step are k + 1 steps from the start |
| Geometry.BoardConvex | src/lib/game.ts:20 | a square on a line between two board squares is on the board |
| Geometry.AlongInjective | src/lib/game.ts:28 | with a non-zero step, different step counts give different squares |
| VectorSeqs.Unique | src/lib/game.ts:34-40 | the result has no duplicates, holds exactly the input's vectors, and is no longer than the input |
| VectorSeqs.UniqueKeepsFirstOccurrenceOrder | src/lib/game.ts:34-40 | the result keeps each vector's first occurrence in input order |
| VectorSeqs.UniqueOfNoDup | src/lib/game.ts:34-40 | a list without duplicates comes back unchanged |
| VectorSeqs.UniqueIdempotent | src/lib/game.ts:34-40 | applying `uniqueVectors` twice gives the same result as applying it once |
| VectorSeqs.UniqueAbsorbs | src/lib/game.ts:36-37 | appending vectors that are already present changes nothing |
| VectorSeqs.UniqueSnoc | src/lib/game.ts:37 | one loop step keeps the result if the vector is already in it, and appends the vector otherwise |
| VectorSeqs.UniqueSnocTwice | src/lib/game.ts:37 | a new vector pushed twice is kept once |
| VectorSeqs.UniqueVectors | src/lib/game.ts:34-40 | the loop computes `Unique`: no duplicates, and exactly the input's vectors |
| VectorSeqs.WithoutNext | src/lib/game.ts:66-67 | one step of the filtering loop keeps the result if the candidate is excluded, and appends the candidate otherwise |
| VectorSeqs.SkipAll | src/lib/game.ts:65-67 | the loop that pushes each candidate not among the single moves computes exactly `Without` |
| VectorSeqs.Without | src/lib/game.ts:66-70 | filtering keeps exactly the vectors not excluded, and keeps a list free of duplicates |
| Rays.RayFrom | src/lib/game.ts:26-30 | the remainder of the do-while is never empty and starts with the square about to be pushed; `Rays.RayFromShape` characterises the rest |
| Rays.Ray | src/lib/game.ts:22-32 | `repeat` is never empty and starts with the first step, whether or not it is on the board; `Rays.RayShape` characterises the rest |
| Rays.RayFromShape | src/lib/game.ts:26-30 | after the first element, every element of the do-while is one step on, on the board and within the limit; the loop stops exactly where the next square fails one of these |
| Rays.RayShape | src/lib/game.ts:22-31 | `repeat` is never empty; element i is i + 1 steps from `from`; the first is emitted even off the board; later ones are on the board; the length is at most `maxN` and is 1 when `maxN` is 1; the ray ends where the next square is off the board or past `maxN` |
| Rays.RayMember | src/lib/game.ts:22-31 | every square of a ray is some positive number of steps from the origin |
| Rays.RayOfOne | src/lib/game.ts:22-31 | with `maxN = 1`, `repeat` returns the single first step |
| Rays.UnboundedRayMember | src/lib/game.ts:22-31 | an unbounded ray reaches the k-th step exactly when k = 1, or when the second and the k-th steps are both on the board |
| Rays.Repeat | src/lib/game.ts:22-32 | the do-while loop returns exactly `Ray(from, dx, dy, maxN)` |
| Rays.Combinations | src/lib/game.ts:44-53 | there are eight step variants, and each has the same total size as (dx, dy) |
| Rays.CombinationsMember | src/lib/game.ts:44-53 | a step is a variant exactly when it is (±dx, ±dy) or (±dy, ±dx) |
| Rays.RaysMember | src/lib/game.ts:54-56 | the concatenated rays hold exactly the squares of the ray in each direction |
| Rays.SymmetricRays | src/lib/game.ts:42-60 | `repeatSymmetric` lists no square twice; `Rays.SymmetricRaysUnion` gives its squares |
| Rays.SymmetricRaysUnion | src/lib/game.ts:42-60 | `repeatSymmetric` has no duplicates, and its squares are exactly the union of `repeat` over the eight variants |
| Rays.RepeatSymmetric | src/lib/game.ts:42-60 | the loop over the variants followed by `uniqueVectors` returns exactly `SymmetricRays` |
| Pieces.Moves | src/lib/game.ts:14-120 | `p.moves(from)` for each kind of piece, as one dispatch over the closed set of kinds; `Pieces.MovesDistinct` states what holds for every kind |
| Pieces.KingMoves | src/lib/game.ts:77 | the king's rule; `Pieces.KingMovesList`, `Pieces.KingNeighbours` and `Pieces.KingAdjacent` characterise it |
| Pieces.RookMoves | src/lib/game.ts:85 | the rook's rule; `Pieces.RookLines` and `Pieces.RookReach` characterise it |
| Pieces.KnightMoves | src/lib/game.ts:93 | the knight's rule; `Pieces.KnightMovesList` and `Pieces.KnightOffsets` characterise it |
| Pieces.BishopMoves | src/lib/game.ts:101 | the bishop's rule; `Pieces.BishopDiagonals` and `Pieces.BishopReach` characterise it |
| Pieces.QueenMoves | src/lib/game.ts:109 | the queen's rule, the bishop's moves followed by the rook's; `Pieces.QueenDisjoint` characterises it |
| Pieces.PawnMoves | src/lib/game.ts:117 | the pawn's rule; `Pieces.PawnForward` characterises it |
| Pieces.Id | src/lib/game.ts:75-115 | the one-letter identifier of each kind; `Pieces.IdDistinct` shows no two kinds share one |
| Pieces.PieceTypesCatalogue | src/lib/game.ts:126 | the catalogue `pieceTypes` holds two different pieces, exactly the kinds with identifiers 'k' and 'r' |
| Pieces.IdDistinct | src/lib/game.ts:75-115 | no two kinds of piece share an identifier |
| Pieces.Offsets | src/lib/game.ts:77 | element i is `from` displaced by the i-th step |
| Pieces.RaysOfOne | src/lib/game.ts:54-56 | with `maxN = 1` the concatenated rays are the first steps, in order |
| Pieces.DiagonalOffsets | src/lib/game.ts:77 | the diagonal variants of (1, 1) list each diagonal neighbour twice, in order |
| Pieces.OrthogonalOffsets | src/lib/game.ts:77 | the variants of (1, 0) list east and west twice each, then north, south, north, south |
| Pieces.UniqueOrthogonalPrefix | src/lib/game.ts:34-40 | removing duplicates from the orthogonal first steps leaves east, west, north, south |
| Pieces.UniqueStuttered | src/lib/game.ts:34-40 | removing duplicates from a list of two vectors, each stuttered, leaves each once |
| Pieces.KingDiagonalRays | src/lib/game.ts:77 | `repeatSymmetric(from, 1, 1, 1)` is the four diagonal neighbours |
| Pieces.KingOrthogonalRays | src/lib/game.ts:77 | `repeatSymmetric(from, 1, 0, 1)` is the four orthogonal neighbours |
| Pieces.KingMovesList | src/lib/game.ts:74-79 | the king's moves are its eight neighbours, diagonal ones first, whatever the board edges |
| Pieces.NeighboursAround | src/lib/game.ts:74-79 | the eight neighbours are distinct, and are exactly the squares other than `from` within one step on each axis |
| Pieces.KingNeighbours | src/lib/game.ts:74-79 | the king has exactly 8 distinct moves, namely the squares around it |
| Pieces.KingAdjacent | src/lib/game.ts:74-79 | a square is a king move exactly when it is adjacent to `from` |
| Pieces.LShapesAround | src/lib/game.ts:90-95 | the eight L-shaped offsets are distinct, and are exactly the squares two away on one axis and one away on the other |
| Pieces.KnightOffsetsInOrder | src/lib/game.ts:93 | the variants of (2, 1) give the L-shapes in source order |
| Pieces.KnightMovesList | src/lib/game.ts:90-95 | the knight's moves are its eight L-shaped offsets, whatever the board edges |
| Pieces.KnightOffsets | src/lib/game.ts:90-95 | the knight has exactly 8 distinct moves, namely the squares a knight's jump away |
| Pieces.PawnForward | src/lib/game.ts:114-119 | the pawn moves to (x, y - 1), and also to (x, y - 2) exactly when y = 6, with no board check and no duplicates |
| Pieces.SlidingOnLine | src/lib/game.ts:82-104 | every square of an unbounded symmetric ray family is k >= 1 steps along a variant, and is on the board unless k = 1 |
| Pieces.SlidingReach | src/lib/game.ts:82-104 | from a board square, an unbounded symmetric ray family reaches every on-board square along each variant, and every first step |
| Pieces.AlongUnit | src/lib/game.ts:85 | k unit steps change each coordinate by k, by -k or not at all |
| Pieces.RookLines | src/lib/game.ts:82-87 | every rook move leaves `from` and stays on its rank or its file |
| Pieces.BishopDiagonals | src/lib/game.ts:98-103 | every bishop move changes both coordinates by the same non-zero distance |
| Pieces.RookReach | src/lib/game.ts:82-87 | from a board square, the rook reaches exactly the other squares of its rank and file that are on the board or adjacent to it |
| Pieces.BishopReach | src/lib/game.ts:98-103 | from a board square, the bishop reaches exactly the squares of its diagonals that are on the board or adjacent to it |
| Pieces.QueenDisjoint | src/lib/game.ts:106-111 | the queen's bishop part and rook part share no square, so the queen has no duplicate moves |
| Pieces.MovesDistinct | src/lib/game.ts:74-119 | no piece rule lists a square twice or lists the starting square |
| Doubles.SecondSteps | src/lib/game.ts:64 | `moves.flatMap(p.moves)`; `Doubles.SecondStepsMember` characterises it |
| Doubles.Double | src/lib/game.ts:62-72 | the `double` list has no duplicates, and contains neither the start nor any single move; `Doubles.DoubleReach` gives its squares exactly |
| Doubles.SecondStepsMember | src/lib/game.ts:64 | the flat-mapped second steps are exactly the squares some first step's rule reaches |
| Doubles.DoubleReach | src/lib/game.ts:62-72 | the double moves have no duplicates, and are exactly the second steps that are neither the start nor a single move |
| Doubles.DoubleMoves | src/lib/game.ts:62-72 | `single` is the rule's moves; `double` has no duplicates, avoids `single` and the start, and is reached from some single move |
| Doubles.KingDoubleRing | src/lib/game.ts:62-79 | a king's double moves are exactly the 16 squares at distance two, including those reached through off-board squares |
| Doubles.KingDoubleInRing | src/lib/game.ts:62-79 | every double king move is at distance two |
| Doubles.KingRingInDouble | src/lib/game.ts:62-79 | every square at distance two is a double king move |
| Doubles.KingTwoSteps | src/lib/game.ts:74-79 | two king steps that land neither on the start nor next to it land at distance two |
| Doubles.PawnDoubleFromRankSix | src/lib/game.ts:62-72 | a pawn on rank 6 has exactly one double move, to rank 3 |

## Left out

- `src/lib/connect.ts` is not part of this model. It is a peer-to-peer session over a foreign networking library, driven by network events.
- `src/index.ts` and `lib/index.js` are not part of this model. They are a websocket relay server and its compiled JavaScript, and they are pure I/O.
- `PieceType.takes` is not modelled. It is an unused alias of `moves`.
- The `Piece` record is not modelled. It is a plain record with no behaviour.
- `pieceTypes` is the constant `Pieces.PieceTypes`, described by `Pieces.PieceTypesCatalogue`.
- The class hierarchy is a closed datatype `Pieces.Kind`. `p.moves` is one function, `Pieces.Moves`. `flatMap` passes `this` and extra arguments, but no rule uses them, so the model maps `Moves` over the list.
- `Rays.Repeat`: a zero step with no limit is excluded by `Walks`, because the code does not terminate on it from a board square.
- `Rays.Repeat`: a negative or fractional `maxN` is not modelled. `maxN` is a natural number or `Unbounded`.
- Coordinates are unbounded integers, not JavaScript floating-point numbers, which lose precision beyond 2^53.
- `VectorSeqs.UniqueVectors` and `Doubles.DoubleMoves` compare by coordinates in the code. The model compares with value equality instead, which `Geometry.Vector.Equals` proves to be the same test.
- `Rays.Combinations`: its own contract states only the count and the size of each variant. Membership is stated in `Rays.CombinationsMember`.
