# Shadow-mapping demo: mesh flattening and mouse-drag camera

The program is a single-file OpenGL/GLUT shadow-mapping demo. Nearly all of it
is driver plumbing. This project models the pure logic in the loader's
flattening and the two input callbacks, and proves properties of them:

- **Loading the teapot** (`loadTeapot`). An indexed triangle mesh (vertex
  table, normal table, position faces, normal faces) is flattened into two
  non-indexed buffers. Entry `3*i+j` of the position buffer is the vertex named
  by corner `j` of face `i`. The normal buffer is built the same way from the
  normal faces. Both buffers hold exactly the `NF()*3` entries that the two
  `glDrawArrays` calls read. The element type is a type parameter, so no
  floating-point arithmetic is involved (`TeapotMesh`, file `teapot_mesh.dfy`).
- **The mouse callback** (`mouseCallback`). A press records an anchor. A release
  adds C++ `int` quotients of the distance from the anchor to the camera: the
  drag divided by 5 goes to the two angles (left button), the vertical drag
  divided by 15 goes to the zoom (right button). C++ division truncates toward
  zero, and Dafny's `/` does not, so `CppInt.Div` models the C++ operator. It is
  specified independently by `IsTruncQuotient`, the rule of C++ [expr.mul]: the
  remainder is smaller than the divisor and takes the dividend's sign
  (`CppInt` in `cpp_int.dfy`, `MouseDrag` in `mouse_drag.dfy`).
- **The keyboard callback** (`keyboardCallback`). Only the Escape key (code 27)
  requests leaving the main loop. The two input callbacks are combined into one
  step function over an explicit application state, and a run is a sequence of
  events (`Callbacks` in `callbacks.dfy`).

The camera angles start at 283 and 3 and receive only integer increments, so
they are `int`. The zoom starts at the mesh's bounding-box diagonal, so it is a
`real` that receives integer increments.

The callback keeps no pressed/dragging flag. Every event whose state is not 0
is handled as a release, measured from the last press position (or from (0, 0)
before any press, the startup values of `MouseDrag.Initial`). No release
resets the anchor (`MouseDrag.RepeatedRelease`).

## Model

| member | source | states |
|---|---|---|
| CppInt.Div | main.cpp:192-197 | C++ `int / int`: for every nonzero divisor the result meets the truncation rule (remainder smaller than the divisor, sign of the dividend) |
| CppInt.DivByPositive | main.cpp:192-197 | the same rule for the positive divisors the callback actually uses |
| CppInt.TruncQuotientUnique | main.cpp:192-197 | at most one quotient meets the truncation rule, so `Div` is exactly the C++ operator |
| CppInt.DivNegate | main.cpp:192-193 | truncation is symmetric about zero: negating the dividend negates the quotient |
| CppInt.DivVersusEuclidean | main.cpp:192-197 | for a positive divisor, the C++ quotient equals Dafny's Euclidean quotient, except that it is one larger for a negative dividend with a nonzero remainder |
| CppInt.TruncationExamples | main.cpp:192-193 | 50/5 = 10, 4/5 = 0, -7/5 = -1 in C++, while Dafny's own -7/5 is -2 |
| MouseDrag.Mouse | main.cpp:179-200 | one call of the callback on the globals, whose startup values (anchor (0, 0), angles 283 and 3) are `MouseDrag.Initial`: a press sets the anchor and changes nothing else; a release keeps the anchor. A left release adds the truncated fifths of both drag distances to the angles and keeps the zoom. A right release adds a whole number, the truncated fifteenth of the vertical drag, to the zoom and keeps the angles. Any other button's release changes nothing |
| MouseDrag.LeftDrag | main.cpp:183-194 | a press at `(px, py)` (with any button) then a left release at `(x, y)` leaves the anchor at `(px, py)` and adds `Div(x-px, 5)` and `Div(y-py, 5)` to the angles |
| MouseDrag.FirstLeftDrag | main.cpp:43-47 | from the startup globals (anchor (0, 0), angles 283 and 3), a press then a left release gives the angles `283 + Div(x-px, 5)` and `3 + Div(y-py, 5)`, the zoom unchanged |
| MouseDrag.RightDrag | main.cpp:183-198 | a press then a right release changes only the zoom, by `Div(y-py, 15)` |
| MouseDrag.LeftDragUndone | main.cpp:188-194 | a left drag followed by a left drag of the opposite distance, started anywhere, restores both angles and the zoom |
| MouseDrag.RepeatedRelease | main.cpp:183-193 | two left releases with no press between them both measure from the same anchor, so both angle increments are added twice |
| MouseDrag.DragExamples | main.cpp:192-193 | a left drag of 50 pixels turns 10 degrees, one of 4 turns none and one of -7 turns -1; the other angle and the zoom stay |
| TeapotMesh.Flatten | main.cpp:216-224 | reference flattening: length `3*NF`, and entry `k` is the table entry named by corner `k%3` of face `k/3` |
| TeapotMesh.Triangles | main.cpp:119-120 | `GL_TRIANGLES` grouping: a buffer of `3n` entries forms `n` triangles, triangle `t` being entries `3t` to `3t+2` |
| TeapotMesh.TrianglesOfFlatten | main.cpp:139-141 | drawing the flattened buffer as triangles gives back each face's own three entries, in face order (grouping undoes flattening) |
| TeapotMesh.CopyVertices | main.cpp:212-215 | the intermediate `vertices` array equals the mesh vertex table entry for entry |
| TeapotMesh.FlattenLoop | main.cpp:218-224 | the nested face/corner loop writes `table[faces[i].v[j]]` to slot `3*i+j` for every face `i < NF` and corner `j < 3`, fills exactly `NF*3` slots, and agrees with `Flatten` |
| TeapotMesh.FlattenPositions | main.cpp:212-224 | the position buffer has `NF*3` entries and entry `3*i+j` is `V[F(i).v[j]]`, so flattening through the copy is the same as indexing the mesh, provided every position index is below `NV` |
| TeapotMesh.FlattenNormals | main.cpp:225-231 | the normal buffer has `NF*3` entries and entry `3*i+j` is `VN[FN(i).v[j]]`: it uses the normal faces, not the position faces |
| TeapotMesh.LoadTeapot | main.cpp:202-231 | both buffers hold exactly the draw count `NF()*3`, and drawing either as triangles yields face `i`'s three vertices, or three normals, for every face |
| Callbacks.Handle | main.cpp:74-78 | dispatching a key release never moves the camera, and a key other than Escape changes nothing at all; dispatching a mouse event never changes the leave request |
| Callbacks.RunLeave | main.cpp:156-160 | `Callbacks.Keyboard` is the keyboard callback's decision; after a run of events, leaving the main loop is requested if and only if it already was or some event released Escape (key 27); no other key requests it |
| Callbacks.KeysLeaveCamera | main.cpp:156-160 | key events are no-ops for the camera: a run ends with the same camera as the run of its mouse events alone |

## Left out

- OBJ parsing and the mesh library (`LoadFromFileObj`, `ComputeBoundingBox`, `GetBoundMax/Min`): cyTriMesh is not part of this model. The mesh is given as input tables, and the initial zoom is a parameter of `MouseDrag.Initial`.
- All OpenGL and GLUT calls: VAO/VBO creation and upload, framebuffer and depth-texture binding, uniforms, draw calls, buffer swaps, window setup. These are driver I/O. The draw count they receive is modelled as `TeapotMesh.DrawCount`.
- The GLUT main loop itself: `Callbacks.Run` dispatches every event of a sequence and records the leave request. It does not model when GLUT actually stops after `glutLeaveMainLoop`.
- Shader building and the F6 hot-reload callback: file I/O and an external compiler.
- The floor quad (`loadFloor`): a constant six-vertex buffer with no logic.
- Float matrix and trigonometry: `glm::lookAt`, `glm::perspective`, the spherical camera position, the bounding-box zoom and the shadow bias matrix. In the code, scale and translate are applied on the right of `P*V*M`, not on the left as the nearby comment claims. That matrix is not modelled.
- The `argc < 2` usage check: process-entry plumbing.
- The `std::cout` print of the angles in the mouse callback: output only.
- MouseDrag.Mouse: does not model 32-bit `int` overflow of `x - firstX`, because pointer coordinates are window pixels. Nor does it model `float` rounding of the camera fields: the angles are exact integers, which holds in `float` up to 2^24, and the zoom is a real.
- TeapotMesh.FlattenPositions: the code does no bounds check, so a position index at or above `NV` is undefined behaviour. It is a precondition here, and likewise for normal indices and a missing normal face in `TeapotMesh.FlattenNormals`.
- TeapotMesh.LoadTeapot: promises full `NF*3` buffers for every mesh, but the loader builds `vertices`, `positions` and `normals` as variable-length arrays on the stack (a compiler extension, about 72·NF + 12·NV bytes in all). A large mesh (roughly 100k faces against an 8 MiB stack) overflows the stack inside the loader before any buffer exists. The model has unbounded sequences and does not model stack exhaustion; the same holds for `TeapotMesh.FlattenPositions` and `TeapotMesh.FlattenNormals`.
