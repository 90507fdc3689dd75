# Matrix algebra and mesh-buffer model of a small OpenGL renderer

The renderer in `main.c` draws a mesh that spins. It does two things that are not just calls into GLFW or OpenGL:

- **Loading the mesh.** `load_model` reads three binary files into one fixed 32768-byte stack buffer: vertex positions, vertex normals and 16-bit indices. It threads a `struct buffer {data, len}` cursor through three calls of `load_file`. Each call hands out the span just read and moves the cursor past it. The number of indices to draw is the index span's length divided by two.
- **Building transforms.** It has a small row-major 4×4 matrix library: `vec4_dot`, `mat4x4_row`, `mat4x4_col`, `mat4x4_mul`, rotations about z and x, translation, and `perspective(n, f)`. Every frame it composes the world transform `T(0,0,-5) · Rx(angle) · T(0,1,0)` and the projection `perspective(0.1, 10)`.

This project models both parts in Dafny:

- `matrix.dfy` (module `Matrix`):
  - Vectors and matrices are sequences of `real` of length 4 and 16. Entry (row, col) sits at index row·4 + col.
  - The dot-product and product loops are methods that mirror the C loops.
  - `Mul` is the pure product, and `Apply` is a matrix acting on a column vector.
  - The lemmas cover unit laws, associativity, and how products act on vectors.
- `transforms.dfy` (module `Transforms`):
  - It holds the constructors, the per-frame world transform and the projection.
  - The cosine and sine of the angle are parameters `c` and `s`.
  - Lemmas state where each transform sends points, inverses, and the depth range of the projection.
- `mesh_loader.dfy` (module `MeshLoader`):
  - The buffer cursor uses offsets into the region instead of pointers.
  - `LoadFile` is one `load_file`. Its `fread` count is a parameter with `fread`'s bound.
  - `LoadModelCounts` is the threading in `load_model` for any three counts `fread` may return. `LoadModel` is the case of regular files read without error.

The comment above `perspective` derives `a = f/(f-n)`, but the code uses `a = -f/(f-n)`. The model follows the code. `Transforms.DerivedSignMissesNear` shows that, with the code's clip w = -z and near plane z = -n, the comment's sign would put the near plane at depth -2f/(f-n), not 0. (The comment's own equations place the near plane at z = +n with w = +n, where its sign is right.) `Transforms.PerspectiveNearPlane` shows that the code's sign puts it at 0.

## Model

| member | source | states |
|---|---|---|
| Matrix.Vec4Dot | main.c:160-166 | the accumulating loop returns the four-term dot product a₀b₀ + a₁b₁ + a₂b₂ + a₃b₃ |
| Matrix.Row | main.c:172-177 | component k of row `row` is the matrix entry at index row·4 + k |
| Matrix.Col | main.c:179-185 | component k of column `col` is the matrix entry at index k·4 + col |
| Matrix.DotRowCol | main.c:229-238 | the dot product of row i of a and column j of b is the standard product sum Σₖ a(i,k)·b(k,j) |
| Matrix.MulEntry | main.c:229-241 | the (i, j) access lemma for the reference product `Mul`: its entry at index 4i + j is Σₖ a(i,k)·b(k,j), for every 0 ≤ i, j < 4 (the C loop itself is tied to `Mul` by `Matrix.Mat4Mul`) |
| Matrix.Mat4Mul | main.c:229-241 | the loop over the 16 entries, splitting each index into row i/4 and column i%4, computes the standard matrix product |
| Matrix.MulIdentityLeft | main.c:229-241 | the identity matrix is a left unit of the product |
| Matrix.MulIdentityRight | main.c:229-241 | the identity matrix is a right unit of the product |
| Matrix.MulAssoc | main.c:229-241 | the product is associative: the grouping of the factors does not matter, (T·R)·T′ = T·(R·T′) |
| Matrix.ApplyMul | main.c:139 | applying a product to a vector is the same as applying its factors one after another (viewport · world · position) |
| Matrix.ApplyMul3 | main.c:364-366 | a three-factor composition built right to left acts as its three factors applied in turn |
| Transforms.RotZ | main.c:187-197 | the entries of `mat4x4_rot_z` with c, s for cos(angle), sin(angle): rows (c, −s, 0, 0), (s, c, 0, 0), (0, 0, 1, 0), (0, 0, 0, 1); its action is stated by RotZMapsPoint |
| Transforms.RotX | main.c:199-209 | the entries of `mat4x4_rot_x` with c, s for cos(angle), sin(angle): rows (1, 0, 0, 0), (0, c, −s, 0), (0, s, c, 0), (0, 0, 0, 1); its action is stated by RotXMapsPoint |
| Transforms.Translate | main.c:211-218 | the entries of `mat4x4_translate`: the identity with (x, y, z) in the last column; its action is stated by TranslateMovesPoint |
| Transforms.Perspective | main.c:245-266 | the entries of `perspective(n, f)`: a = −f/(f−n) at (2, 2), b = −f·n/(f−n) at (2, 3), −1 at (3, 2), ones at (0, 0) and (1, 1), zeros elsewhere; requires n ≠ f; its action is stated by PerspectiveClip |
| Transforms.WorldTransform | main.c:364-366 | the per-frame composition T(0, 0, −5)·(Rx(c, s)·T(0, 1, 0)), nested as the two `mat4x4_mul` calls build it; its action is stated by WorldTransformPoint |
| Transforms.FrameProjection | main.c:369 | the per-frame projection `perspective(0.1, 10)`; its planes are stated by FrameProjectionPlanes |
| Transforms.TranslateMovesPoint | main.c:211-218 | translation by (tx, ty, tz) sends the point (x, y, z, 1) to (x+tx, y+ty, z+tz, 1) |
| Transforms.TranslateCompose | main.c:211-218 | two translations compose into one translation by the sum of the offsets |
| Transforms.TranslateInverse | main.c:211-218 | translation by the negated offset undoes a translation |
| Transforms.RotXFixesXAxis | main.c:199-209 | rotation about x fixes (1, 0, 0, w) |
| Transforms.RotXMapsYAxis | main.c:199-209 | rotation about x sends (0, 1, 0, 1) to (0, c, s, 1) |
| Transforms.RotXMapsPoint | main.c:199-209 | rotation about x sends (x, y, z, 1) to (x, c·y − s·z, s·y + c·z, 1) |
| Transforms.RotXInverse | main.c:199-209 | when c² + s² = 1, the rotation with sine −s is the inverse of the rotation about x |
| Transforms.RotZMapsXAxis | main.c:187-197 | rotation about z sends (1, 0, 0, 1) to (c, s, 0, 1) |
| Transforms.RotZMapsPoint | main.c:187-197 | rotation about z sends (x, y, z, 1) to (c·x − s·y, s·x + c·y, z, 1) |
| Transforms.RotZInverse | main.c:187-197 | when c² + s² = 1, the rotation with sine −s is the inverse of the rotation about z |
| Transforms.RotationsKeepW | main.c:187-209 | neither rotation changes the w component of any vector |
| Transforms.PlaneRotationKeepsLength | main.c:187-209 | when c² + s² = 1, the plane rotation (u, v) ↦ (c·u − s·v, s·u + c·v) that both rotation matrices apply keeps u² + v² |
| Transforms.RotationsKeepLength | main.c:187-209 | when c² + s² = 1, both rotations keep x² + y² + z² |
| Transforms.WorldTransformPoint | main.c:364-366 | the frame transform sends (x, y, z, 1) to (x, c·(y+1) − s·z, s·(y+1) + c·z − 5, 1) |
| Transforms.WorldTransformOrigin | main.c:364-366 | the frame transform sends the model origin to (0, c, s − 5, 1) |
| Transforms.PerspectiveClip | main.c:245-266 | the projection passes x and y through, sets clip w to −z, and sets clip z to −f·(z+n)/(f−n) |
| Transforms.ClipDepthTimes | main.c:257-264 | depth after the divide, times −z·(f−n), equals −f·(z+n) |
| Transforms.PerspectiveNearPlane | main.c:245-266 | for 0 < n < f, the near plane z = −n lands at depth 0 after the divide |
| Transforms.PerspectiveFarPlane | main.c:245-266 | for 0 < n < f, the far plane z = −f lands at depth 1 after the divide |
| Transforms.PerspectiveDepthRange | main.c:245-266 | for 0 < n < f, every depth between the planes lands in [0, 1] |
| Transforms.DerivedSignMissesNear | main.c:246-258 | with the code's clip w = −z, the projection built with the comment's a = f/(f−n) puts the near plane z = −n at depth −2f/(f−n) ≠ 0, while the code's a = −f/(f−n) puts it at 0 |
| Transforms.FrameProjectionPlanes | main.c:369 | the projection used each frame gives clip z = 0 at 0.1 units and clip z = clip w = 10 at 10 units |
| MeshLoader.LoadFile | main.c:36-48 | the span starts at the old cursor and has length read_len; the cursor moves past it; span length plus new free length equals the old free length; the span holds the file's first read_len bytes; nothing outside the span changes |
| MeshLoader.ReadCount | main.c:39 | fread's count is at most the free length and at most the file size, and it is short of the file exactly when the file does not fit |
| MeshLoader.UntouchedSpan | main.c:43-45 | a span that does not overlap the span a later load writes keeps its bytes |
| MeshLoader.LoadModelCounts | main.c:55-76 | for every count fread may return at each of the three calls (at most the free length and at most the file): the spans start at offset 0 with exactly those lengths, are adjacent and pairwise disjoint, and with the final free length add up to 32768; each span holds the front of its file; num_indices (main.c:126) is the index span's byte length over two |
| MeshLoader.LoadModel | main.c:55-76 | for regular files read without error: each span's length is the file size or the free length, whichever is smaller; the layout of LoadModelCounts holds; each file is loaded whole when the three fit together; a short read leaves no free space |

## Left out

- Window, context and GL object setup, buffer and uniform uploads, draw calls and the render loop (main.c:83-122, 302-392): these are calls into GLFW and OpenGL, and their behaviour is not visible here.
- The shader source strings and `compile_shader` (main.c:130-154, 286-300): these are GPU-side text and API calls. The shader's `viewport * world * position` is modelled only as `Matrix.ApplyMul`. That reading holds because main.c:367 and main.c:371 upload the row-major data with `transpose = true`, so GLSL's `M * v` equals `Apply(M, v)`.
- `printf` dumps and `mat4x4_print`: these are logging. The dump loops in `load_model` that step by three floats are not modelled.
- `fopen`, `fclose` and `assert(f)`: file I/O and abort. A file is given as its byte contents.
- The `read_len >= 0` assert (main.c:40): it holds for any count `fread` returns.
- Floating point: numbers are exact reals. Rounding in `float`, the `cos`/`sin` calls themselves, the `fmodf` angle wrap, the angle and translation updates (main.c:376-383) and `diff_time` (main.c:279-283) are float numerics and clock access.
- `pack_gltf.py`: it loads JSON and copies files to produce the three binary files, and it is not part of this model.
- The 3×3 normal matrix `mat3(world_txfm)` taken in the shader is not modelled.
- Transforms.Perspective: requires n ≠ f, because over reals the division by f − n is undefined there. The C code divides by zero in `float` and yields infinities or NaN.
- Transforms.RotXInverse, Transforms.RotZInverse, Transforms.RotationsKeepLength: these assume c² + s² = 1. That holds for the `cos`/`sin` pair of one angle, which is not computed here.
- MeshLoader.LoadModel: takes `fread`'s count to be the whole file when it fits and otherwise the whole free length, which is what `fread` does for a regular file without a read error. `MeshLoader.LoadModelCounts` states the layout for any count within `fread`'s bound, including a short read that `load_file` keeps without checking `ferror`.
