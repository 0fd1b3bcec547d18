# RibTools in Dafny

A model of the hard parts of the RibTools REYES renderer and proofs about it. `dafny verify dfyconfig.toml`
checks everything.

The parts, and what is shown of each:

- **Shader assembler and virtual machine** (`ShaderCode`, `Assembler`, `ShaderMachine`, `ShaderRun`, `ShaderLaws`). The
  one-pass assembler with back-patched end addresses, and the machine with its program counter, 16-deep funcop stack and
  illuminance loop. Assembling and running a block program is executing it as a structured program, for every
  program, every effect of the plain instructions, every condition and every set of lights; and structured execution is
  that of the program with its branches and blocks inlined.
- **NURBS** (`Nurbs`, `NurbsEval`, `Quotients`, `NurbsPatch`; RiNuPatch, section 5.2 of the RenderMan Interface
  Specification). The in-place triangular scheme is the Cox-de Boor recursion; partition of unity; the routine's derivatives are the
  derivatives; the evaluated point is the quotient of the whole surface's coordinates, and the tangent the derivative of
  that quotient; convex hull.
- **Packets** (`Packets`, `PacketRuns`, `PacketManager`). Sender, wire and receiver as a state machine over every
  partial send and receive; conservation of the byte stream; in-order delivery; everything sent can be delivered;
  exactly which split heads are misread and exactly which runs deliver wrongly.
- **Sampling of micropolygons** (`RowMajor`, `Micropolys`, `ConvexQuads`, `Sampling`, `GridScan`, `DiceGrid`). Exactly
  when the scan of a diced grid with bounding-box culling refines testing every sample of the bucket; a convex
  micropolygon is recorded in the samples of its area and in no others.
- **The split worklist** (`Pieces`, `Ownership`, `Worklist`). Tiling, termination and reference counts from insertion to
  the end of a world. Primitives live in an explicit store, so that aliasing, editing after insertion and deletion are
  all visible: deletion removes the entry, and every later access is proved to find its entry.
- **Depth sort and compositing** (`DepthSort`, `Compositing`).
- **Mersenne Twister** (`RandMT`), as a buffered generator for any word operations (`TwistBuffer`) and its 32-bit instance.
- **Bit-packed writer and reader** (`Bits`, `MemFile`), on unsigned integers cut to 32 and 8 bits where the code does.
- **Buckets** (`Buckets`, `Images`). Tiling, the four sample buffers, rectangle copies and bucket transfer in any order.
- **The graphics state cache** (`StateCache`, `Scenes`; the graphics state of section 4 of the RenderMan Interface
  Specification).
- **Blocked shading** (`SimdShading`) and **polygon tessellation** (`PolygonFan`).

`Common` holds what several modules share. Floats are `real`. What the operating system, the socket, the application or
an opaque routine decides is a parameter: how many bytes a socket call moves, what CheckForSplit answers for a primitive,
the raster area and its square root, the effect of a shader instruction, a condition or a light, and the sample positions
(in [0, 1) of their pixel).

Findings, each with a counterexample and the exact condition under which the code is right:

- A packet head that arrives in pieces is misread, because every piece is stored at offset 0 (`SplitHeadLosesPayload`).
  A head is read right if and only if it came in one piece or in one of two lucky splits (`HeadReadExactly`), and what a
  run delivers is a prefix of what was sent if and only if all its delivered heads were (`RunRightExactly`).
- Block end addresses are kept in 16 bits and wrap (`EndAddressWraps`). All those that a run can read are right if and
  only if they are below 65536 (`EndsRightExactly`); those of solar blocks and varying conditions are never read.
- A collapsed quad passes the edge test on its whole line but is culled to its box (`CollapsedQuadIsCulled`). A sample is
  recorded right if and only if its four edge values are not all zero or its pixel is in the box range
  (`CullingIsLossless`, `ReceivedIsAllHits`).
- The constructor's check of a patch's minimum parameters is one knot too low (`DomainCheckTooWeak`). The break point is
  usable if and only if u is in the domain, which starts at knot order-1 (`BreakPointUsable`).
- Pops do not change the revision and the end of a world empties the lists of copies without resetting the checkers, so
  that primitives can be given stale attributes, or none (`StaleAfterAttributeEnd`, `NothingInSecondWorld`); exactly when
  an insertion after silent operations is right is `CurrentExactly`.
- Two of the three patches of a last triangle run around it the other way, so that the patches of a triangle have minus
  a third of its area (`ThirdsOfTriangle`, `TriangleLosesArea`). The patches of a polygon have its signed area if and only
  if no triangle is left over or that triangle is flat (`Simplify`).
- The sample buffer table can run out in a later world of another resolution (`SecondWorldRunsOut`). Every bucket gets a
  buffer if and only if the sizes in the table and those of the tiling are at most four (`WorldBegin`).
- A buffer is reused whatever its sampling rate (`SecondWorldHasOldRate`). All buffers have the rate asked for if and
  only if the table held none of their sizes with another (`FindOrAdd`, `WorldBegin`).
- Reading more than 25 bits at once can lose the first of them (`LongReadLosesBit`). The value is right if and only if
  the bits beyond the 32 that the accumulator holds are zeros (`ReadBits`).
- An instruction with a uniform destination takes the first block's result for all blocks (`SecondBlockIgnored`). It is
  right if and only if it has one result over the whole grid (`DoneIsScalar`).

## Model

| member | source | states |
|---|---|---|
| `Assembler.Parser.ParseCodeLine` | RI_System/src/RI_RRASM_Parser.cpp:651-753 | the line is refused exactly when the one-pass specification refuses it (an orelse or funcopend with no open block), and otherwise the words, the open-block list and the back-patched end address are those of the specification |
| `Assembler.Parser.DoParse` | RI_System/src/RI_RRASM_Parser.cpp:628-753 | a whole listing is accepted exactly when every line is, and leaves the specified code, open blocks and labels |
| `Assembler.AcceptedExactly` | RI_System/src/RI_RRASM_Parser.cpp:628-753 | a listing is accepted if and only if every label has a name, every instruction its operands, and at every orelse and funcopend more blocks have been opened than closed |
| `Assembler.AssemblesToFlat` | RI_System/src/RI_RRASM_Parser.cpp:651-753 | for every well-formed block program and every state before it, the one-pass assembler with back-patching yields exactly the recursively defined layout at the current address and leaves the enclosing open blocks alone |
| `ShaderCode.SmallCodeFits` | RI_System/include/RI_SVM_Shader.h:112-120 | in code of at most 65536 words every end address that can be read fits its 16 bits, whatever blocks are around it |
| `ShaderMachine.FlatIsLaid` | RI_System/src/RI_RRASM_Parser.cpp:651-753 | wherever the words of a program stand, each of its instructions does, with its operands and the low 16 bits of its end address |
| `ShaderMachine.EndsRightExactly` | RI_System/include/RI_SVM_Shader.h:112-120 | wherever a program is laid out, all the end addresses that a run can read are the true ones if and only if they are below 65536 |
| `ShaderMachine.StepsCompose` | RI_System/src/RI_SVM_Shader.cpp:205-258 | m + n turns of the loop are m turns and then n |
| `ShaderMachine.WellNestedNeverFails` | RI_System/include/RI_SVM_Context.h:74-122 | at most 16 nested blocks with lighting blocks at the outside never throw, for all conditions and lights |
| `ShaderMachine.LitOnceInOrder` | RI_System/src/RI_SVM_Ops_Lighting.cpp:82-156 | the lights that a loop visits are all the active non-ambient ones, each once, in order |
| `ShaderMachine.LightsRunOnceInOrder` | RI_System/src/RI_SVM_Ops_Lighting.cpp:82-156 | the illuminance loop runs its body exactly once for each of those lights, in order, after the light's own shader |
| `ShaderLaws.ExecAppend` | RI_System/src/RI_SVM_Shader.cpp:205-258 | one program after another runs on the data the first leaves, unless that returns or fails |
| `ShaderLaws.IfInlined` | RI_System/src/RI_SVM_Ops_Compare.cpp:33-91 | in a well-nested program an iftrue is its body put in its place if the condition varies or holds, and nothing if it does not |
| `ShaderLaws.IfElseInlined` | RI_System/src/RI_SVM_Ops_Compare.cpp:33-132 | with an orelse it is both bodies in turn for a varying condition, the first for a true and the second for a false one |
| `ShaderLaws.SolarInlined` | RI_System/include/RI_SVM_Ops_Lighting.h:76-121 | a solar block is its body on the data that its effect leaves |
| `ShaderLaws.StraightRuns` | RI_System/src/RI_SVM_Shader.cpp:205-258 | straight code has the effects of its instructions in order, and a return ends it there |
| `ShaderLaws.SixteenAtMost` | RI_System/include/RI_SVM_Context.h:74-122 | n blocks in one another inside d others run if and only if d + n is at most 16 |
| `ShaderMachine.RunsAsStructured` | RI_System/src/RI_SVM_Shader.cpp:205-258 | flat execution is structured execution: from the first word of any placed program whose readable end addresses fit, in any enclosing blocks, for any instruction effects, conditions and lights, the machine reaches the outcome of the block-structured meaning with the funcop stack and illuminance context as before |
| `ShaderMachine.RunsLights` | RI_System/src/RI_SVM_Ops_Lighting.cpp:82-156 | the jump-back loop at funcopend is the structured light loop, from any light on |
| `ShaderMachine.RunsOrElse` | RI_System/src/RI_SVM_Ops_Compare.cpp:94-132 | the orelse body is entered when the iftrue was varying or false, and left with the stack of before |
| `ShaderMachine.RunsTrue` | RI_System/src/RI_SVM_Ops_Compare.cpp:94-132 | after a uniformly true iftrue the orelse body is jumped over |
| `ShaderRun.Context.InstIfTrue` | RI_System/src/RI_SVM_Ops_Compare.cpp:33-91 | the instruction on the array-backed funcop stack does the specified step, including the overflow error |
| `ShaderRun.Context.InstOrElse` | RI_System/src/RI_SVM_Ops_Compare.cpp:94-132 | the same for orelse |
| `ShaderRun.Context.InstFuncopEnd` | RI_System/src/RI_SVM_Ops_Lighting.cpp:82-156 | the same for funcopend, with the search for the next light as a loop |
| `ShaderRun.Context.InstIlluminance` | RI_System/include/RI_SVM_Ops_Lighting.h:22-74 | the same for illuminance |
| `ShaderRun.Context.InstSolar` | RI_System/include/RI_SVM_Ops_Lighting.h:76-121 | the same for solar |
| `ShaderRun.Context.RunFrom` | RI_System/src/RI_SVM_Shader.cpp:205-258 | the fetch / execute loop ends with the shading data of the specified run |
| `ShaderRun.ShaderAssembles` | RI_System/src/RI_RRASM_Parser.cpp:217-249 | in a whole shader every label is at the first word of its section and every section stands intact at its address |
| `ShaderRun.AssembledShaderRuns` | RI_System/src/RI_SVM_Shader.cpp:205-258 | for every shader whose readable end addresses fit, and every section, environment and data: its listing assembles, and running the words from its label halts with the result of the structured program |
| `ShaderRun.Run` | RI_System/src/RI_SVM_Shader.cpp:261-295 | a shader run (default-parameter sections, then the main one) goes through one data state per section in the given order, each the result of that section's structured program on the state before, from the caller's data to the final data |
| `ShaderRun.EndAddressWraps` | RI_System/include/RI_SVM_Shader.h:112-120 | counterexample: with 65534 words of body the stored end address wraps to 0 and the flat run fails where the structured program ends normally |
| `Nurbs.BasisIsConvex` | RI_System/src/RI_Primitive_NuPatch.cpp:182-215 | for every order and nonempty knot interval the basis values are nonnegative and sum to 1 |
| `Nurbs.EvalBaseIsLocal` | RI_System/old/RI_Primitive_NuPatch_old.cpp:50-89 | the recursive basis function is zero outside its knots |
| `Nurbs.RowIsCoxDeBoor` | RI_System/old/RI_Primitive_NuPatch_old.cpp:50-89 | entry s of the triangular scheme is the recursive Cox-de Boor value eval_Base(brk - s, k - 1, u), for every sorted knot vector, order and u in the half-open interval |
| `Nurbs.RowIsPiece` | RI_System/src/RI_Primitive_NuPatch.cpp:182-215 | on the closed interval, its end included, it is the polynomial that the recursive function is on that interval |
| `Nurbs.DerivativeClosedForm` | RI_System/src/RI_Primitive_NuPatch.cpp:219-244 | the derivative obtained by differentiating the scheme order by order is the closed form the routine evaluates |
| `Nurbs.RowIsDifferentiable` | RI_System/src/RI_Primitive_NuPatch.cpp:219-244 | that is the derivative of the basis: the row at u + h differs from the row at u plus h times it by at most a constant, the same for all u and h of the interval, times h squared |
| `NurbsEval.FindBreakPoint` | RI_System/src/RI_Primitive_NuPatch.cpp:137-169 | the exact result of the descending search for every u, below, in, at the end of and above the knots |
| `NurbsEval.BreakPointUsable` | RI_System/src/RI_Primitive_NuPatch.cpp:137-169 | the break point starts a nonempty interval that holds u, with all k functions and control points in range, if and only if u is in the domain |
| `NurbsEval.DomainCheckTooWeak` | RI_System/src/RI_Primitive_NuPatch.cpp:53-69 | counterexample: a u that the constructor's check of the minimum accepts leads to control point index -1 |
| `NurbsEval.RaiseOrder` | RI_System/src/RI_Primitive_NuPatch.cpp:190-214 | the inner loop replaces the row of order r - 1 by that of order r in the same array, with no zero denominator |
| `NurbsEval.BasisFunctions` | RI_System/src/RI_Primitive_NuPatch.cpp:182-215 | the in-place routine leaves the row of order k, which is the Cox-de Boor row |
| `NurbsEval.BasisDerivatives` | RI_System/src/RI_Primitive_NuPatch.cpp:219-244 | the routine leaves the derivative of the row scaled by the knot interval, and its entries sum to 0 |
| `NurbsPatch.WindowIsAll` | RI_System/src/RI_Primitive_NuPatch.cpp:304-330 | weighing only the k control values at the break point is weighing all n of them by their recursive basis functions |
| `NurbsPatch.PatchSumIsSurface` | RI_System/src/RI_Primitive_NuPatch.cpp:304-330 | on the half-open knot intervals the windowed double sum is the defining tensor product sum over the whole control net |
| `NurbsPatch.PatchSumIsPiece` | RI_System/src/RI_Primitive_NuPatch.cpp:304-330 | on the closed intervals, the closed end of the last one included, it is the polynomial piece of that surface |
| `NurbsPatch.PieceIsDifferentiable` | RI_System/src/RI_Primitive_NuPatch.cpp:304-330 | the sum taken with the derivative row is the derivative by u of that piece, with an error of at most a constant times h squared |
| `NurbsPatch.PatchInHull` | RI_System/src/RI_Primitive_NuPatch.cpp:289-356 | with positive weights the denominator is positive and every coordinate lies between the least and greatest projected coordinate of the control points used |
| `NurbsPatch.TensorSum` | RI_System/src/RI_Primitive_NuPatch.cpp:304-330 | the two loops with the running control index compute the tensor product sum of all four components |
| `NurbsPatch.EvalPoint` | RI_System/src/RI_Primitive_NuPatch.cpp:254-357 | on the domain, for any weights: the evaluated point is the quotient of the surface coordinates by its weight below the end knots, and of its polynomial piece up to and at them; there is none exactly if that weight is zero, and with positive weights there always is |
| `NurbsPatch.EvalTangentU` | RI_System/src/RI_Primitive_NuPatch.cpp:254-357 | for any weights with a nonzero sum, the u tangent is the derivative of the projected point in units of the knot interval: wherever the weight stays away from zero, the point at u + h is the point at u plus h times the tangent over the interval's length, up to a constant times h squared |
| `NurbsPatch.CtrlHasBound` | RI_System/src/RI_Primitive_NuPatch.cpp:304-330 | every patch has the bound of control values that this constant is made of |
| `Quotients.QuotientDiffers` | RI_System/src/RI_Primitive_NuPatch.cpp:335-357 | a quotient of two coordinates moves by h times the difference of cross products over the square, up to an explicit multiple of h squared |
| `Packets.EncodeDecode` | DSystem/src/DNetwork_PacketManager.cpp:43-65 | the four length bytes of a number, and the number of four bytes, are inverse |
| `Packets.StreamPrefix` | DSystem/src/DNetwork_PacketManager.cpp:43-65 | framing is uniquely decodable: one stream is a prefix of another only if its payload list is |
| `Packets.HeadReadExactly` | DSystem/src/DNetwork_PacketManager.cpp:425-454 | a head received in pieces, each stored at offset 0, gives the right length if and only if it came in one piece or in one of two lucky splits |
| `PacketRuns.StepConserves` | DSystem/src/DNetwork_PacketManager.cpp:335-492 | every step of either thread conserves the byte stream: delivered, partly received, on the wire and unsent bytes make up all that was sent |
| `PacketRuns.RunKeepsInv` | DSystem/src/DNetwork_PacketManager.cpp:335-492 | the conservation law holds after every run whose complete heads were read right |
| `PacketRuns.DeliveredInOrder` | DSystem/src/DNetwork_PacketManager.cpp:335-492 | after every such run, with any partial sends, receives and failures, the delivered packets are a prefix of those sent; all of them when nothing is in flight |
| `PacketRuns.DeliveredInOrderWhenHeadsWhole` | DSystem/src/DNetwork_PacketManager.cpp:335-492 | the same for every run in which each receive on a head gets all four bytes or none |
| `PacketRuns.AllCanBeDelivered` | DSystem/src/DNetwork_PacketManager.cpp:335-492 | progress: from every state reached with whole heads where neither end has failed, a run of flushes, sends and receives delivers all that was sent |
| `PacketRuns.DeliveryRightExactly` | DSystem/src/DNetwork_PacketManager.cpp:457-488 | a completed packet continues the sent payloads if and only if its head came in one piece or a lucky split |
| `PacketRuns.RunRightExactly` | DSystem/src/DNetwork_PacketManager.cpp:335-492 | for every run from the start: what has been delivered at its end is a prefix of the payloads sent if and only if every packet delivered on the way had its head in one piece or a lucky split |
| `PacketRuns.SplitHeadLosesPayload` | DSystem/src/DNetwork_PacketManager.cpp:425-454 | counterexample: a run from the start state in which a one-byte payload is received as an empty packet |
| `PacketManager.Manager.Send` | DSystem/src/DNetwork_PacketManager.cpp:43-65 | queues the framed payload and changes nothing else |
| `PacketManager.Manager.FlushInQueue` | DSystem/include/DNetwork_PacketManager.h:83-94 | empties the queue of the callers and puts all its packets, in order, behind those of the thread |
| `PacketManager.Manager.SendOnce` | DSystem/src/DNetwork_PacketManager.cpp:396-418 | one send: the bytes taken, the offset, the removal of a finished packet, and the would-block and error results |
| `PacketManager.Manager.ReceiveHeadPart` | DSystem/src/DNetwork_PacketManager.cpp:425-454 | one receive on the head, with its offset-0 store and the body buffer it allocates |
| `PacketManager.Manager.ReceiveBodyPart` | DSystem/src/DNetwork_PacketManager.cpp:457-488 | one receive on the body, and the delivery of a finished packet |
| `PacketManager.Manager.GetNextPacketMatchID32` | DSystem/src/DNetwork_PacketManager.cpp:117-149 | returns the first queued packet with one of the ids, removing only it if asked, and finds none exactly if there is none |
| `Micropolys.CoveredInBox` | RI_System/src/RI_Hider_Micropolys.cpp:77-108 | a point that passes the four-edge same-sign test lies in the quad's bounding box, for every quad, concave or crossed, unless all four edge values are zero |
| `ConvexQuads.HullCovered` | RI_System/src/RI_Hider_Micropolys.cpp:77-108 | every convex combination of the vertices of a convex quad passes the edge test, whichever way its loop turns |
| `ConvexQuads.CoveredInHull` | RI_System/src/RI_Hider_Micropolys.cpp:77-108 | a point that passes the edge test of a convex quad that is not flat is a convex combination of its vertices |
| `Sampling.AddMPSamples` | RI_System/src/RI_Hider_Micropolys.cpp:30-116 | after the early exit, the clipping and the pixel loops every pixel of the box range has been tested and no other touched; so a convex micropolygon is added to every sample of the bucket that is a convex combination of its vertices, and if it is not flat to no other |
| `Sampling.LoopDirectionDoesNotShow` | RI_System/src/RI_Hider_Micropolys.cpp:30-116 | with the loop of any quad run the other way the same samples are recorded |
| `Sampling.CullingIsLossless` | RI_System/src/RI_Hider_Micropolys.cpp:30-116 | after the scan a sample has the micropolygon added exactly if it passes the edge test, if and only if its four edge values are not all zero or its pixel is in the box range |
| `Sampling.CollapsedQuadIsCulled` | RI_System/src/RI_Hider_Micropolys.cpp:30-116 | counterexample: in every bucket with a sample at a far point of its line, a collapsed quad passes the test there and is not recorded |
| `GridScan.CellPosition` | RI_System/src/RI_Hider_Micropolys.cpp:206-272 | the scan has visited row * (w - 1) + column cells before each cell |
| `GridScan.CellAt` | RI_System/src/RI_Hider_Micropolys.cpp:206-272 | each of the (w - 1) * (h - 1) cells is there exactly once, at its row-major place, with its own four corners |
| `GridScan.CellFrom` | RI_System/src/RI_Hider_Micropolys.cpp:206-272 | the running vertex index k addresses the four true corners k, k + 1, k + w and k + w + 1, with the depth and colours of vertex k, all in bounds |
| `GridScan.Bust` | RI_System/src/RI_Hider_Micropolys.cpp:206-272 | after the scan every sample of the bucket has received, in scan order, the cells whose range and edge test include it; for convex cells that are not flat, exactly those whose area it is in |
| `GridScan.ReceivedIsAllHits` | RI_System/src/RI_Hider_Micropolys.cpp:206-272 | that is the list of all the cells that pass the edge test if and only if none of them is culled away at an all-zero point |
| `DiceGrid.CheckForSplit` | RI_System/src/RI_Primitive_Base.cpp:427-532 | for every area: culled exactly below the epsilon, split both ways exactly above the limit, otherwise a grid that is whole SIMD blocks wide, at most 48 by 48 and at most the maximal number of points |
| `Pieces.PiecesTile` | RI_System/src/RI_Primitive_Base.cpp:24-84 | the pieces of a split tile the primitive's (u, v) rectangle: each point in exactly one, no other point in any |
| `Pieces.PiecesFitBudget` | RI_System/src/RI_Primitive_Base.cpp:28-66 | the pieces' budgets T(c) = 1 + 2T(c + 1) + 2T(c + 2) fit in what is left of the primitive's own |
| `Ownership.IntersectsExactly` | RI_System/include/RI_HiderSTBucket.h:80-85 | a bucket intersects a bound if and only if they share a pixel |
| `Ownership.ReleasedSound` | RI_System/include/RI_Primitive_Base.h:94-104 | a release that removes one reference keeps every count equal to its references and deletes exactly at zero |
| `Ownership.GrownSound` | RI_System/src/RI_HiderST.cpp:157-178 | newly made and inserted primitives keep it too |
| `Worklist.Hider.SplitPrim` | RI_System/src/RI_Primitive_Base.cpp:24-84 | the clones, inserted and then edited in place, end up as the specified pieces, counts and ranges included, and nothing else changes |
| `Worklist.Hider.InsertForDicing` | RI_System/src/RI_HiderST.cpp:181-190 | every intersecting bucket, and no other, gets one counted reference |
| `Worklist.Hider.Handle` | RI_System/src/RI_Framework.cpp:173-203 | one turn keeps all counts, clears the entry, appends exactly the pieces and leaves all other primitives as they are |
| `Worklist.TilesStep` | RI_System/src/RI_Framework.cpp:173-203 | every turn keeps the law that settled and pending pieces cover, for each geometry and (u, v), what the list covered at first |
| `Worklist.FitsStep` | RI_System/src/RI_Framework.cpp:173-203 | every turn uses up some of the budget, so that the loop over the growing list ends |
| `Worklist.Hider.SplitAndAddToBuckets` | RI_System/src/RI_Framework.cpp:168-205 | the loop ends for every way of answering; what is diced, culled or lost covers exactly what was listed, within the budget; every primitive split in some direction after at most nine splits is visited again in all its halves or quarters; the buckets hold exactly the diced pieces that intersect them, as they were when diced |
| `Worklist.SentAllAt` | RI_System/src/RI_HiderST.cpp:181-190 | each bucket's list grows by exactly the intersecting diced pieces, in order, once each |
| `Worklist.RootIsTiled` | RI_System/src/RI_Framework.cpp:168-205 | for a root of its own geometry: each (u, v) point of it is in exactly one settled piece, no other point in any, and at most T(c) primitives descend from it |
| `Worklist.SplitPointsVisited` | RI_System/src/RI_Primitive_Base.cpp:24-84 | every point of such a split primitive is held by a primitive visited later |
| `Worklist.RootIsShown` | RI_System/src/RI_Framework.cpp:168-205 | if every split names a direction and none comes after more than nine, each point of a root is in exactly one of the diced and culled pieces |
| `Worklist.PartsCover` | RI_System/src/RI_Framework.cpp:148-165 | the patches of a complex primitive cover, for each geometry it names and as often, the unit square with its states |
| `Worklist.Hider.Simplify` | RI_System/src/RI_Framework.cpp:148-165 | afterwards all primitives are simple: the simple ones unchanged and the patches of the complex ones with their states, every total kept |
| `Worklist.Hider.ReleaseBuckets` | RI_System/src/RI_Framework.cpp:313-325 | the release loops leave no live primitive and each ever made deleted exactly once |
| `Worklist.Hider.DeleteBuckets` | RI_System/include/RI_HiderSTBucket.h:46-51 | deleting the buckets does the same from any state of their lists, as after a failed render |
| `Worklist.Hider.WorldEnd` | RI_System/src/RI_Framework.cpp:279-330 | from any list to the end: no primitive is used after its deletion, each is deleted exactly once, none survives, what was settled covers what was inserted, and what was split was visited in its parts |
| `TwistBuffer.Buffer.Seed` | DSystem/src/DUtils_Random.cpp:28-81 | the state holds the first 624 words of the recurrence of the seed |
| `TwistBuffer.Buffer.ReloadWords` | DSystem/src/DUtils_Random.cpp:84-105 | the three-part in-place reload advances the state by 624 words of the recurrence, with every index within 625 words |
| `TwistBuffer.Buffer.Reload` | DSystem/src/DUtils_Random.cpp:84-105 | the reload and its reseeding branch, each with the number it returns |
| `TwistBuffer.Buffer.Random` | DSystem/include/DUtils_Random.h:58-70 | draw t returns the output of word 624 + t, and the reseeding branch is never taken |
| `RandMT.GenIsX` | DSystem/src/DUtils_Random.cpp:84-105 | the words stored by the reload are those of x[k + 624] = x[k + 397] xor twist(x[k], x[k + 1]) |
| `RandMT.MixedBits` | DSystem/include/DUtils_Random.h:31-56 | the mixed word has its top bit from one word and its 31 others from the next, and only the lowest bit of that one decides about the constant |
| `RandMT.TwistOfBits` | DSystem/include/DUtils_Random.h:31-56 | without its constant the twist is the first word's top bit, and below it the second word without its lowest bit |
| `RandMT.TemperUndone` | DSystem/include/DUtils_Random.h:58-70 | tempering can be undone, so that no two words are tempered alike |
| `RandMT.TemperXor` | DSystem/include/DUtils_Random.h:58-70 | tempering is linear, and so determined by its values at the 32 bits (`TemperBits0` to `TemperBits24`) |
| `RandMT.Draws` | DSystem/include/DUtils_Random.h:58-70 | for every seed and n, the first n draws are the tempered words 624, 625, ... of the recurrence, which can be read back from them |
| `DepthSort.SortSampData` | RI_System/src/RI_Hider_Filter.cpp:20-55 | the in-place insertion sort yields the stable depth order of the first n samples, each once |
| `DepthSort.SortUnique` | RI_System/src/RI_Hider_Filter.cpp:20-55 | there is only one such order |
| `Compositing.CompositeIsFrontSum` | RI_System/src/RI_Hider_Filter.cpp:89-96 | the back-to-front fold is the sum of each colour times the product of the nearer (1 - opacity) |
| `Compositing.BehindOpaque` | RI_System/src/RI_Hider_Filter.cpp:84-96 | samples behind a fully opaque one do not change the colour |
| `Compositing.CompositeInUnit` | RI_System/src/RI_Hider_Filter.cpp:89-96 | 0 <= Ci <= Oi <= 1 keeps the composite in [0, 1] |
| `Compositing.FilterPixelBox` | RI_System/src/RI_Hider_Filter.cpp:58-107 | the pixel is the scaled sum, over its samples, of the composite of the stable depth order of at most 1024 entries, and the clamped mean opacity |
| `Compositing.PixelOnce` | RI_System/src/RI_Hider_Filter.cpp:58-107 | that determines the pixel |
| `Compositing.OneMoreSample` | RI_System/src/RI_Hider_Filter.cpp:58-107 | a sample list more adds what it gives, scaled |
| `Compositing.EvenPixel` | RI_System/src/RI_Hider_Filter.cpp:58-107 | a pixel whose n samples all give one colour has that colour when scaled by 1 / n |
| `Compositing.AlphaIsNearestMean` | RI_System/src/RI_Hider_Filter.cpp:84-107 | the alpha of a sample is the number from 0 to 1 nearest to a third of all the opacity it received, in whatever order |
| `Compositing.PixelInUnit` | RI_System/src/RI_Hider_Filter.cpp:58-107 | a pixel of proper samples stays in [0, 1] in all four channels |
| `Compositing.ArrivalOrderDoesNotShow` | RI_System/src/RI_Hider_Filter.cpp:58-107 | samples at distinct depths give the same colour and alpha in whatever order they arrived |
| `Bits.ShlOrBits` | DSystem/include/DUtils_MemFile.h:131-134 | shifting in and or-ing appends the new bits, whatever stale bits lie above |
| `Bits.MaskIsLow` | DSystem/include/DUtils_MemFile.h:131-134 | masking with (1 << c) - 1 keeps exactly the low c bits |
| `MemFile.MemWriterDynamic.WriteBits` | DSystem/include/DUtils_MemFile.h:125-144 | appends exactly the low cnt bits to all that was written |
| `MemFile.MemWriterDynamic.WriteBitsEnd` | DSystem/include/DUtils_MemFile.h:147-157 | fills the last byte with zeros and leaves no bits pending |
| `MemFile.MemReader.ReadBits` | DSystem/include/DUtils_MemFile.h:316-339 | fails exactly if too few bits are left; otherwise takes cnt bits off what remains, and its value is those bits with zeros for the first ones that did not fit in 32 bits, right if and only if these were zeros |
| `MemFile.LongReadLosesBit` | DSystem/include/DUtils_MemFile.h:316-339 | counterexample: of 26 bits read after one pending bit the first, a one, is read as zero |
| `MemFile.WriteThenRead` | DSystem/include/DUtils_MemFile.h:125-339 | for every sequence of writes of at most 16 bits, reading back with the same counts returns each value masked to its count |
| `Buckets.SampleBuffers.FindOrAdd` | RI_System/src/RI_HiderST.cpp:50-69 | a slot of the size is returned, none exactly if the size is new and all four slots are taken, and all others are left alone; its rate is the one asked for if and only if no slot of that size held another |
| `Buckets.TilesPartition` | RI_System/src/RI_HiderST.cpp:123-146 | every pixel of the image is in exactly one bucket |
| `Buckets.TilesInside` | RI_System/src/RI_HiderST.cpp:123-146 | every bucket is nonempty and inside the image |
| `Buckets.NeverRunsOut` | RI_System/src/RI_HiderST.cpp:50-69 | sizes of one resolution only, old and new together, are at most four |
| `Buckets.WorldBegin` | RI_System/src/RI_HiderST.cpp:101-146 | for every resolution, rate and old table the loops produce the tiling; every bucket gets a buffer of its size if and only if the old sizes and those needed are at most four, and then all have the rate if and only if the old table held no needed size with another |
| `Buckets.SecondWorldRunsOut` | RI_System/src/RI_HiderST.cpp:50-69 | counterexample: after a world of n by n pixels, 128 < n < 256, the one bucket of a world of m by m, m < 128 other than n - 128, gets no buffer |
| `Buckets.SecondWorldHasOldRate` | RI_System/src/RI_HiderST.cpp:50-69 | counterexample: in a second world of the same small resolution but another rate the bucket is given the buffer of the first |
| `Images.Buffer2D.CopyRect` | RI_System/include/RI_Buffer2D.h:119-155 | for every offset and size: each destination pixel is the source pixel placed there, if any, else unchanged; all accesses in bounds |
| `Images.Buffer2D.CopyOutputBucket` | RI_System/src/RI_HiderST.cpp:383-405 | the buffer holds exactly the pixels of the bucket, row by row |
| `Images.Buffer2D.StoreOutputBucket` | RI_System/src/RI_HiderST.cpp:408-431 | the bucket's pixels are replaced and no others |
| `Images.StoreUndoesCopy` | RI_System/src/RI_HiderST.cpp:383-431 | a bucket copied out of one image and stored in another gives it that part of the first |
| `Images.StoreBackIsIdentity` | RI_System/src/RI_HiderST.cpp:383-431 | stored back in its own image it changes nothing |
| `Images.CopyUndoesStore` | RI_System/src/RI_HiderST.cpp:383-431 | copying out what was stored returns it |
| `Images.Buffer2D.EndRenders` | RI_System/include/RI_HiderSTBucket.h:69-73 | after all buckets have ended, in any order, each pixel is that of the bucket containing it |
| `Images.Buffer2D.StoreBuckets` | RI_System/src/RI_HiderST.cpp:408-431 | the same for buckets stored by StoreOutputBucket, in any order |
| `Images.AssembledOnce` | RI_System/include/RI_HiderSTBucket.h:69-73 | so the image does not depend on the order |
| `StateCache.GuardedIsCurrent` | RI_System/src/RI_Framework.cpp:40-60 | in every run of stack operations where an edit comes between each pop or world end and the next insertion, every insertion is given the current top |
| `StateCache.GuardedRunsAreCurrent` | RI_System/src/RI_State.cpp:249-362 | the same for every run of commands, for attributes and transform |
| `StateCache.CurrentExactly` | RI_System/include/RI_Base.h:296-329 | with no edit since the last sync, an insertion is right if and only if no world has ended since and the shared copy is what the stack held at the outermost level returned to |
| `StateCache.CurrentAfterEdit` | RI_System/include/RI_Base.h:296-329 | with an edit since then it is always right |
| `StateCache.State.Do` | RI_System/src/RI_State.cpp:249-362 | each command takes both stacks through the operations it stands for |
| `StateCache.State.InsertPrim` | RI_System/src/RI_Framework.cpp:40-60 | what a primitive is given and which copies are made |
| `StateCache.RunCommands` | RI_System/src/RI_Framework.cpp:40-60 | running the commands on the objects: one result per insertion with the tops of both stacks there, all current in a guarded run |
| `Scenes.AttribsScoped` | RI_System/src/RI_State.cpp:249-362 | for every block-structured scene and state the attribute stack can do all its operations, ends with the attributes in force by the scopes (only a transform block lets them out) and nothing else changed, and has those in force on top at every primitive |
| `Scenes.XformsScoped` | RI_System/src/RI_State.cpp:249-362 | the same for the transform: no block lets one out, and a world starts with the identity |
| `Scenes.RunScene` | RI_System/src/RI_Framework.cpp:40-60 | every scene runs from a new state, and if it is guarded every primitive is given the attributes and transform in force where it stands |
| `StateCache.StaleAfterAttributeEnd` | RI_System/src/RI_State.cpp:257-262 | counterexample: a primitive after AttributeEnd is given the attributes of the ended block |
| `StateCache.NothingInSecondWorld` | RI_System/src/RI_Framework.cpp:327-330 | counterexample: in a second world a primitive before any attribute command finds the list of copies empty |
| `SimdShading.Context.Execute` | RI_System/include/RI_SVM_Ops_Base.h:22-188 | the block loop writes exactly the destination's blocks, each from the sources' blocks of before, also when the destination is a source |
| `SimdShading.DoneIsScalar` | RI_System/include/RI_SVM_Ops_Base.h:266-338 | that is the scalar instruction at every grid point, uniform symbols staying uniform, if and only if the destination varies or the result is the same at every point |
| `SimdShading.ScalarMeans` | RI_System/include/RI_SVM_Ops_Base.h:266-338 | the scalar instruction gives its destination f of its sources' values in their order and changes nothing else |
| `SimdShading.SecondBlockIgnored` | RI_System/src/RI_SVM_Shader.cpp:196-202 | counterexample: a uniform destination of a varying source has the first block's value at the points of the second |
| `SimdShading.WellFormedSettles` | RI_System/src/RI_SVM_Shader.cpp:196-244 | a program whose uniform destinations have uniform sources has one result for each of them, all along |
| `SimdShading.Context.Run` | RI_System/src/RI_SVM_Shader.cpp:196-244 | every straight-line elementwise program whose uniform destinations get one result each ends at every grid point as if it had been run there alone |
| `PolygonFan.Tessellate` | RI_System/src/RI_Primitive_Poly.cpp:120-160 | for every vertex count the quads and the optional last triangle cover the fan triangles exactly once each, in order |
| `PolygonFan.FanIsPolygon` | RI_System/src/RI_Primitive_Poly.cpp:64-107 | for every antisymmetric measure of edges the parts add up to the polygon |
| `PolygonFan.PartsHaveArea` | RI_System/src/RI_Primitive_Poly.cpp:64-107 | in the plane, with a last triangle counted as a whole, that is the shoelace area |
| `PolygonFan.ThirdsOfTriangle` | RI_System/src/RI_Primitive_Poly.cpp:31-61 | the three patches of a triangle have a third of its area each; the second and third run the other way around |
| `PolygonFan.PatchesCover` | RI_System/src/RI_Primitive_Poly.cpp:31-61 | each point of a triangle is a convex combination of the corners of the patch at the triangle's corner that it is nearest to |
| `PolygonFan.Simplify` | RI_System/src/RI_Primitive_Poly.cpp:31-107 | the patches inserted, one for a quad and three for a last triangle, have the shoelace area less four thirds of the last triangle's; that is the shoelace area if and only if no triangle is left over or it is flat |
| `PolygonFan.TriangleLosesArea` | RI_System/src/RI_Primitive_Poly.cpp:31-61 | counterexample: the patches of a triangle have minus a third of its area |

## Left out

- IEEE rounding, NaN and infinities: arithmetic is over `real`; the bounding boxes start from the largest float and vertices are taken to be in its range.
- Operand parsing, symbol and type checks and label lookup by name in the assembler, and `cmplt` jumps, which can leave a block without unwinding the funcop stack.
- An `iftrue` with more than one orelse: the block programs have at most one.
- Write masks under a varying `iftrue`: both branches run for all lanes, as in the code.
- ShaderRun.EndAddressWraps: is one family of programs that go wrong; that every program with a wrong readable end address goes wrong is not claimed, since a wrapped address may lead to code that does the same.
- NurbsPatch.EvalPoint: has no point where the weight is zero; the infinities and NaNs of the division are not modelled.
- The SIMD lanes of patch evaluation: one lane is modelled, since each runs the same scalar loops.
- The v tangent of a patch, which is the u tangent with the directions exchanged, and the 3-component "P" input of patches, which writes x three times.
- NurbsPatch.PatchSumIsSurface: is stated for the half-open knot intervals on which the recursive definition is; at the closed end of the last interval, where that definition is zero, the value is that of the polynomial piece (`PatchSumIsPiece`).
- Empty payloads: the receiver asserts a nonzero length, so runs send nonempty ones.
- Sockets, select, timeouts, sleeping, threads and locking: each step of a thread is atomic.
- Rendering between the split loop and the release of the primitives: it leaves the bucket lists alone.
- DiceGrid.CheckForSplit: takes the raster area and its square root as given; projection and raster estimates are not part of this model.
- Buckets.WorldBegin: models a run without the debug filter that keeps one bucket only.
- Worklist.Hider.DeleteBuckets: a deleted bucket's list is modelled as cleared entry by entry, since the bucket is gone afterwards.
- Images.Buffer2D.CopyRect: moves whole pixels; the loop over the four channels of a pixel is not modelled.
- The options stack, the mode stack and its nesting checks: commands are taken to be properly nested.
- SimdShading.Context.Run: the condition on uniform destinations is exact for each instruction; for a whole run it is only shown to suffice, since a later instruction can overwrite a wrong value.
- Light-source and ambient caches, texture, noise, trigonometric quadrics, image files, windows, network rendering of buckets, the RIB and RSL parsers: they keep no state that these laws depend on.
- Faces with several loops, whose extra vertices the code does not skip, and `ResourceManager::Collect`.
