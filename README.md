# ALM force-constant fitting, modelled in Dafny

This project models the fitting component of ALM (`alm_c++/fitting.cpp`). The component takes term records produced by the symmetry and interaction analysis, together with displacement and force snapshots, and builds two systems:

- the direct-fitting least-squares system `A x ≈ f`, where each column of A is one fitted force-constant parameter, meaning one symmetry group of term records;
- when translational invariance is enforced, the equality-constraint system `C x = d`.

It then hands column-major copies of these systems to the linear-algebra routines and keeps the fitted parameters.

The model follows the source's structure, one Dafny module per concern:

| file | module | what it models |
|---|---|---|
| `combinatorics.dfy` | `Combinatorics` | `factorial` and `gamma`, the multiplicity factor of a term record, including the in-place sort of its copy and the run-counting loop |
| `atom_map.dfy` | `AtomMap` | `inprim_index`: the row a force coordinate takes within a snapshot block |
| `fc_terms.dfy` | `FcTerms` | the term records (`FcProperty`), the group sizes `ndup`, and the parameter numbering order by order, group by group |
| `assembly.dfy` | `Assembly` | the inner loops of `calc_matrix_elements`: one record, one group, one order, one snapshot |
| `translation.dfy` | `Translation` | `translational_invariance` for one order, and `is_allzero` |
| `constraint_matrix.dfy` | `ConstraintMatrix` | `calc_constraint_matrix` from the reduced vectors on: P, Pmax, zero-filling, the harmonic unit rows and the block layout |
| `layout.dfy` | `Layout` | the column-major buffers, the rank-check buffer, sums of squares and the rank count of `rank` |
| `fitting.dfy` | `Fit` | the `Fitting` class: `fitmain`, `calc_matrix_elements`, `translational_invariance` over all orders, `fit_without_constraints` and `fit_with_constraints` |
| `arith.dfy` | `Arith` | cursor arithmetic, e.g. `j * M + i` |

Each imperative routine is a method over arrays. Its loop invariants tie the arrays to a specification function:

- `DesignMatrix` and `ForceVector` for the assembly;
- `ConstraintSet` for the generated constraints;
- `ConstraintRows` and `ConstraintRhs` for C and d;
- `ColumnMajorSeq` for the buffers.

Lemmas state the source's promises about those functions.

The floating-point solvers are parameters of the model:

- the least-squares solver (`dgelss_`);
- the constrained solver (`dgglse_`);
- the singular values (`dgesdd_`);
- the rank-revealing reduction of a constraint set (Eigen `FullPivLU` rank and image).

The model states exactly which problem each solver is handed and what is done with its answer.

## Model

| member | source | states |
|---|---|---|
| Combinatorics.Factorial | alm_c++/fitting.cpp:730-737 | n! for n >= 0 is at least 1 and at least n |
| Combinatorics.SortSeq | alm_c++/fitting.cpp:700 | the reference sorted arrangement of a tuple is sorted, has the same elements and has the same length |
| Combinatorics.InsertSorted | alm_c++/fitting.cpp:700 | inserting into a sorted tuple keeps it sorted |
| Combinatorics.InsertElements | alm_c++/fitting.cpp:700 | inserting adds exactly the inserted value to the multiset of elements |
| Combinatorics.SortedPermutationUnique | alm_c++/fitting.cpp:700 | two sorted rearrangements of the same elements are equal, so any correct sort of the copy gives SortSeq |
| Combinatorics.Insort | alm_c++/fitting.cpp:700 | sorts the copy in place: sorted afterwards and a permutation of the old contents |
| Combinatorics.InsertLast | alm_c++/fitting.cpp:700 | one insertion step extends the sorted prefix by one entry and permutes the array |
| Combinatorics.Swap | alm_c++/fitting.cpp:700 | exchanges two entries, keeping the multiset |
| Combinatorics.Runs | alm_c++/fitting.cpp:702-716 | a non-empty tuple has at least one and at most n runs of equal adjacent values |
| Combinatorics.RunsSum | alm_c++/fitting.cpp:705-713 | the run lengths nsame[0..nuniq) add up to n |
| Combinatorics.RunsCountDistinct | alm_c++/fitting.cpp:702-713 | for the sorted copy, nuniq equals the number of distinct values |
| Combinatorics.RunsStepSame | alm_c++/fitting.cpp:708-709 | an entry equal to its predecessor lengthens the last run (++nsame[iuniq]) |
| Combinatorics.RunsStepNew | alm_c++/fitting.cpp:710-712 | an entry different from its predecessor opens a new run of length 1 (++nsame[++iuniq], ++nuniq) |
| Combinatorics.CountRuns | alm_c++/fitting.cpp:697-716 | after the counting loop, nsame[..nuniq] are the run lengths of the sorted copy and nsame_to_front counts the entries of arr equal to arr[0] |
| Combinatorics.CountStep | alm_c++/fitting.cpp:707-713 | one pass of the loop keeps nsame equal to the runs of the prefix seen so far, followed by zeros, with nuniq == iuniq + 1 runs |
| Combinatorics.BumpRun | alm_c++/fitting.cpp:709-711 | incrementing one counter changes only that counter |
| Combinatorics.FactorialProductStep | alm_c++/fitting.cpp:720-722 | the running denominator gains the factorial of one more run length per iteration |
| Combinatorics.Gamma | alm_c++/fitting.cpp:683-728 | gamma(n, arr) is the count of entries equal to arr[0] over the product of the factorials of the run lengths of the sorted copy; arr is not modified |
| Combinatorics.NumeratorBounds | alm_c++/fitting.cpp:697-716 | the numerator nsame_to_front lies between 1 and n |
| Combinatorics.GammaAllDistinct | alm_c++/fitting.cpp:683-728 | gamma is 1 when all indices are distinct |
| Combinatorics.GammaAllSame | alm_c++/fitting.cpp:683-728 | gamma is n / n! when all n indices are identical |
| AtomMap.FirstIndexOf | alm_c++/fitting.cpp:674-679 | the search stops at the first representative equal to the atom |
| AtomMap.InprimIndex | alm_c++/fitting.cpp:668-681 | returns 3*i + n%3 for the first i with map_p2s[i][0] == n/3; the result is below 3*natmin and names that atom and direction |
| FcTerms.GroupSliceAt | alm_c++/fitting.cpp:461-473 | group g of an order owns the records from the prefix sum of the sizes before it up to the prefix sum including it (mm advances ndup[o][g] times per group) |
| FcTerms.ParamTerms | alm_c++/fitting.cpp:455-476 | there is one record list per parameter, N in total |
| FcTerms.NumParamsPrefix | alm_c++/fitting.cpp:48-51 | N accumulates the number of groups of each order |
| FcTerms.ParamTermsAt | alm_c++/fitting.cpp:455-476 | group g of order o is parameter iparam = (groups of the lower orders) + g, below N |
| Assembly.UntouchedRowIsZero | alm_c++/fitting.cpp:416-473 | a row that no record of a group maps to keeps 0 in that group's column |
| Assembly.GroupEntryStep | alm_c++/fitting.cpp:462-473 | processing one more record subtracts gamma*coef*Πu from its own row and changes no other row |
| Assembly.DispProductStep | alm_c++/fitting.cpp:466-469 | the product amat_tmp gains one displacement factor per index j |
| Assembly.LoadRecord | alm_c++/fitting.cpp:463-469 | ind receives the record's index tuple and amat_tmp is the product of the displacements it names |
| Assembly.PlaceTerm | alm_c++/fitting.cpp:463-471 | a record lands on row inprim_index(elems[0]) < 3*natmin, with value gamma*coef*Πu |
| Assembly.SubtractEntry | alm_c++/fitting.cpp:471 | amat[k][iparam] -= value changes that entry only |
| Assembly.AccumulateRecord | alm_c++/fitting.cpp:462-473 | one record's subtraction keeps the block's column equal to the group entries of the records processed so far |
| Assembly.AccumulateGroup | alm_c++/fitting.cpp:461-473 | after a group's records, its column in the snapshot block has gained exactly the group entry of every row, and mm has advanced by the group size; nothing else changes |
| Assembly.DesignEntryOfGroup | alm_c++/fitting.cpp:457-476 | the design entry of parameter iparam is the group entry of its group's slice of records |
| Assembly.AssembleGroup | alm_c++/fitting.cpp:461-475 | fills column iparam of the block with its design entries; mm ends at the prefix sum including the group |
| Assembly.AssembleOrder | alm_c++/fitting.cpp:457-476 | one order fills columns iparam0 .. iparam of the block, leaves the later columns zero, and advances iparam to the parameters of the orders so far |
| Assembly.FillForces | alm_c++/fitting.cpp:446-451 | writes exactly 3*natmin forces of the representative atoms at fsum[im..], and advances im by 3*natmin |
| Assembly.AssembleSnapshot | alm_c++/fitting.cpp:444-476 | one snapshot's force block and design block are written, and no other rows change |
| Fit.DesignMatrix | alm_c++/fitting.cpp:432-480 | the design matrix has 3*natmin rows per snapshot and N columns |
| Fit.DesignMatrixAt | alm_c++/fitting.cpp:432-478 | row s*3natmin + r of A is row r of snapshot s's block (idata advances by 3*natmin) |
| Fit.ForceVectorAt | alm_c++/fitting.cpp:446-451 | entry s*3natmin + r of the force vector is the force of row r of snapshot s |
| Fit.ClearSystem | alm_c++/fitting.cpp:416-421 | amat and fsum are zero-filled |
| Fit.DesignStep | alm_c++/fitting.cpp:432-479 | the first snap blocks plus snapshot snap's block are the first snap + 1 blocks of the design matrix |
| Fit.ForceStep | alm_c++/fitting.cpp:446-451 | the same for the force vector |
| Fit.AssembleNext | alm_c++/fitting.cpp:434-478 | assembling one snapshot extends the assembled prefix by one block, and the rest stays zero |
| Fit.AssembleTranslations | alm_c++/fitting.cpp:433-479 | the ntran translated images of a pattern extend the assembled prefix by ntran blocks |
| Fit.Fitting.CalcMatrixElements | alm_c++/fitting.cpp:403-486 | afterwards amat is the design matrix and fsum the force vector of all snapshots, read data-major, translation-minor |
| Fit.CountParams | alm_c++/fitting.cpp:48-51 | N is the number of groups over all orders |
| Fit.Fitting.AllocateAndAssemble | alm_c++/fitting.cpp:48-59 | allocates an M x N matrix and an M-entry vector, with M = 3*natmin*ndata*ntran, and assembles them |
| Fit.Fitting.FitMain | alm_c++/fitting.cpp:29-79 | without constraints, params is the first N entries of the least-squares answer for A and f. With constraints, params is the constrained solution x, failure happens exactly on a repeated tuple or an unusable harmonic reference, and then params is unchanged |
| Fit.Fitting.FitWithoutConstraints | alm_c++/fitting.cpp:81-130 | the solver gets A column-major and f. fsum becomes its answer. f_square is the sum of squares of f. The residual over rows N..M-1 is reported exactly when the rank is N |
| Fit.Fitting.TranslationalInvariance | alm_c++/fitting.cpp:488-656 | succeeds exactly when no order with parameters repeats an index tuple, and then stores each order's constraint set |
| Fit.TranslationSetsShape | alm_c++/fitting.cpp:553-632 | every stored constraint has one entry per group of its order and an entry above eps10 |
| Fit.TranslationSets | alm_c++/fitting.cpp:520-648 | there is one constraint set per order |
| Fit.Reduced | alm_c++/fitting.cpp:309-319 | there is one reduced list per order |
| Fit.ReducedShape | alm_c++/fitting.cpp:309-319 | reduced vectors have one entry per group, and each order keeps at most as many as it has candidates and groups |
| Fit.ConstraintsAtMostParams | alm_c++/fitting.cpp:326-337 | with every rank at most its group count, P <= N, so the residual range N-P .. M starts at a valid index |
| Fit.BuildSystem | alm_c++/fitting.cpp:152-165 | allocates Pmax rows. It fails exactly when the harmonic reference is unusable, naming the reason. Otherwise the first P rows hold C and d |
| Fit.StackedRank | alm_c++/fitting.cpp:176-192 | as written: the rank is the number of singular values above eps12 of the buffer holding A's column-major block followed by C's, read as an (M+P) x N matrix; it is at most N |
| Fit.IntendedStackedRank | alm_c++/fitting.cpp:176-192 | as intended: the rank is the numerical rank of [A; C], from its column-major (M+P) x N buffer; it is at most N |
| Fit.RankOfBuffer | alm_c++/fitting.cpp:191 | rank((M+P), N, mat_tmp) counts the singular values above eps12 of the buffer read as an (M+P) x N matrix, at most N |
| Fit.ReportedRankIsIntended | alm_c++/fitting.cpp:176-191 | with a single column, or no rows in A or C, the rank reported for the buffer as written is the numerical rank of [A; C] |
| Fit.SolveGlse | alm_c++/fitting.cpp:210-236 | the constrained solver gets A and C column-major, f and the first P entries of d, and its b replaces fsum |
| Fit.TailSquares | alm_c++/fitting.cpp:245-248 | the sum of squares from an index on, zero when the index is past the end |
| Fit.StorePrefix | alm_c++/fitting.cpp:254-256 | the first N entries of fsum become x and the rest keep the solver's values |
| Fit.Fitting.SolveAndStore | alm_c++/fitting.cpp:236-256 | the residual is the sum of squares of the solver's entries N-P .. M-1, and fsum holds x followed by the solver's entries from N on |
| Fit.Fitting.SolveConstrained | alm_c++/fitting.cpp:191-256 | reports the rank of the rank-check buffer as written (A's block, then C's), the sum of squares of f and the residual, and leaves the solution in fsum |
| Fit.Fitting.FitWithConstraints | alm_c++/fitting.cpp:132-262 | generates the constraint sets, builds C and d, and solves. It fails with a duplicate exactly when an order repeats a tuple, and with the reference error exactly when the harmonic reference is unusable; the reported rank is that of the rank-check buffer as written |
| Fit.Fitting.constructor | alm_c++/fitting.cpp:23 | a new fitting object has no constraint sets and no parameters |
| Layout.ColumnMajorSeq | alm_c++/fitting.cpp:97-104 | the column-major buffer of an M x N matrix has M*N entries |
| Layout.ColumnMajorAt | alm_c++/fitting.cpp:214-226 | amat_mod[j*M+i] == amat[i][j] and cmat_mod[j*P+i] == const_mat[i][j], with the position inside the buffer |
| Layout.ColumnMajorInjective | alm_c++/fitting.cpp:97-104 | the transposition loses nothing: equal buffers come from equal matrices |
| Layout.ReadColumnMajorInverse | alm_c++/fitting.cpp:97-110 | a routine that reads the buffer as an M x N column-major matrix reads back A |
| Layout.CopyBlock | alm_c++/fitting.cpp:176-189 | writes a matrix column-major at an offset of the buffer and leaves the rest alone |
| Layout.CopyColumn | alm_c++/fitting.cpp:179-189 | one column j lands at offset + j*rows .. offset + j*rows + rows |
| Layout.ColumnMajor | alm_c++/fitting.cpp:97-104 | the copy is the column-major form of the matrix |
| Layout.RankBuffer | alm_c++/fitting.cpp:176-189 | the rank-check buffer has (M+P)*N entries |
| Layout.RankBufferHoldsA | alm_c++/fitting.cpp:179-183 | A's entry (i, j) sits at j*M + i of the rank-check buffer |
| Layout.RankBufferHoldsC | alm_c++/fitting.cpp:185-189 | C's entry (i, j) sits at M*N + j*P + i of the rank-check buffer |
| Layout.StackForRank | alm_c++/fitting.cpp:176-189 | the buffer as written: A's column-major block followed by C's |
| Layout.RankBufferCounterexample | alm_c++/fitting.cpp:176-191 | for a 2x2 A and a 1x2 C, [A; C] has rank 1, but the 3x2 matrix read from the rank buffer has a non-zero 2x2 minor |
| Layout.StackColumnMajor | alm_c++/fitting.cpp:176-191 | the corrected buffer is the column-major form of [A; C] |
| Layout.RankBufferAgrees | alm_c++/fitting.cpp:176-189 | the buffer as written equals the column-major form of [A; C] when N <= 1 or M == 0 or P == 0 |
| Layout.SingleColumnAgrees | alm_c++/fitting.cpp:176-189 | with one column, A's entries followed by C's are the single column of [A; C] |
| Layout.CopyStackedColumn | alm_c++/fitting.cpp:179-189 | column j of [A; C] lands at j*(M+P) .. (j+1)*(M+P) |
| Layout.SumSquaresAppend | alm_c++/fitting.cpp:105-107 | sums of squares add over concatenation |
| Layout.ResidualAtMostTotal | alm_c++/fitting.cpp:245-248 | a residual over rows lo..hi never exceeds the sum of squares over rows 0..hi |
| Layout.SquareSum | alm_c++/fitting.cpp:105-107 | the loop computes the sum of squares of fsum[lo..hi) |
| Layout.CountAbove | alm_c++/fitting.cpp:824-827 | the count of singular values above the threshold is at most the number examined |
| Layout.RankFromSingularValues | alm_c++/fitting.cpp:803-833 | rank counts the first min(m, n) singular values above eps12, so it is at most min(m, n) |
| Layout.CopyPrefix | alm_c++/fitting.cpp:71-73 | params receives exactly the first N entries of fsum |
| Translation.IsAllZero | alm_c++/fitting.cpp:658-666 | true exactly when every one of the first n entries is within eps10 of zero |
| Translation.IndexOf | alm_c++/fitting.cpp:534-544 | list_found holds a record under exactly the tuples the records have |
| Translation.IndexFindsEveryTerm | alm_c++/fitting.cpp:540-576 | without repeated tuples, looking up a record's tuple finds that record |
| Translation.BuildIndex | alm_c++/fitting.cpp:534-544 | fails exactly when two records share an index tuple, and otherwise returns the index of all records |
| Translation.IndexMothers | alm_c++/fitting.cpp:581 | every group index found addresses an entry of arr_constraint |
| Translation.Reset | alm_c++/fitting.cpp:571 | the scratch vector is zeroed before each constraint |
| Translation.AddFound | alm_c++/fitting.cpp:576-582 | a lookup adds the found record's coefficient to its group's entry and changes nothing else |
| Translation.ConstraintVector | alm_c++/fitting.cpp:571-583 | a constraint vector has nparams entries |
| Translation.UnmatchedKeysGiveZero | alm_c++/fitting.cpp:576-584 | keys that find no record give the zero vector, which is never stored |
| Translation.Order0Keys | alm_c++/fitting.cpp:573-575 | the harmonic lookup visits one key per atom |
| Translation.Order0Constraint | alm_c++/fitting.cpp:568-583 | the harmonic vector for (iat, icrd, jcrd) sums the coefficients found for (3*iat+icrd, 3*jat+jcrd) over all atoms |
| Translation.HigherConstraint | alm_c++/fitting.cpp:609-630 | the higher-order vector sums the coefficients found for the reordered coordinate tuples of the atoms within the cutoff |
| Translation.ConstraintSetMembers | alm_c++/fitting.cpp:584-632 | a vector is in the set exactly when some key list produces it and it is not all zero, so repeats are kept once |
| Translation.ConstraintSetShape | alm_c++/fitting.cpp:553-586 | every stored vector has nparams entries and is not all zero, and there are at most as many as key lists |
| Translation.ConstraintSetAppend | alm_c++/fitting.cpp:557-640 | the constraints of consecutive loops are the union of each loop's constraints |
| Translation.Order0Step | alm_c++/fitting.cpp:564-588 | the (icrd, jcrd) step adds its vector, if not all zero, to the set |
| Translation.AtomConstraints0 | alm_c++/fitting.cpp:563-589 | the nine harmonic constraints of atom iat are added to the set |
| Translation.Order0Bound | alm_c++/fitting.cpp:557-589 | the harmonic set has at most 9*natmin elements |
| Translation.AssignmentStep | alm_c++/fitting.cpp:608-635 | one more xyz assignment adds the constraints of its three directions |
| Translation.RowConstraints | alm_c++/fitting.cpp:609-634 | the three jcrd constraints of one xyz assignment are added to the set |
| Translation.ClusterConstraints | alm_c++/fitting.cpp:606-635 | a cluster beyond the cutoff adds nothing, otherwise the constraints of every xyz assignment |
| Translation.AtomConstraintsStep | alm_c++/fitting.cpp:597-637 | one more combination adds the constraints of its cluster |
| Translation.AtomConstraints | alm_c++/fitting.cpp:591-639 | the constraints of every combination of atom iat are added to the set |
| Translation.KeyListsStep | alm_c++/fitting.cpp:557-640 | one more representative atom adds its constraints |
| Translation.CollectOrder | alm_c++/fitting.cpp:557-640 | the loop over the representative atoms collects the order's constraint set |
| Translation.OrderConstraints | alm_c++/fitting.cpp:520-648 | an order without parameters yields the empty set. Otherwise it fails exactly on a repeated tuple, else returns the constraint set of its key lists |
| Translation.GeneratedShape | alm_c++/fitting.cpp:553-589 | every generated constraint has nparams entries and one entry above eps10 in absolute value |
| ConstraintMatrix.GroupCounts | alm_c++/fitting.cpp:291-294 | nparam[o] is the number of groups of order o |
| ConstraintMatrix.NumParamsIsSum | alm_c++/fitting.cpp:291-294 | N is the sum of nparam over the orders |
| ConstraintMatrix.Ranks | alm_c++/fitting.cpp:327-328 | the rank of each order is the number of its reduced vectors |
| ConstraintMatrix.CountRows | alm_c++/fitting.cpp:326-337 | sums the per-order counts, and in reference mode replaces order 0's count by nparam[0] |
| ConstraintMatrix.RowsWithinAllocation | alm_c++/fitting.cpp:152-163 | if every rank is at most its order's candidate count, P <= Pmax |
| ConstraintMatrix.PlacedRow | alm_c++/fitting.cpp:390-392 | a placed row is zero outside its order's column block |
| ConstraintMatrix.OrderRows | alm_c++/fitting.cpp:385-396 | the rows of the orders lo..hi number the sum of their ranks, each of width N |
| ConstraintMatrix.ConstraintRows | alm_c++/fitting.cpp:339-396 | C has P rows of width N |
| ConstraintMatrix.ConstraintRhs | alm_c++/fitting.cpp:339-374 | every entry of d is 0 except the harmonic reference values in reference mode |
| ConstraintMatrix.OrderFits | alm_c++/fitting.cpp:385-396 | irow advances by the order's rank and icol by its parameter count, both within P and N |
| ConstraintMatrix.OrderRowsAt | alm_c++/fitting.cpp:385-396 | row k of order o sits at the rows of the earlier orders plus k and is the k-th reduced vector in the order's column block |
| ConstraintMatrix.OrderRowInBlock | alm_c++/fitting.cpp:385-396 | a row of order o is non-zero only in columns [Σ_{o'<o} nparam[o'], Σ_{o'<=o} nparam[o']) and holds its reduced vector there |
| ConstraintMatrix.HarmonicRowsAreUnit | alm_c++/fitting.cpp:371-374 | in reference mode rows 0..nparam[0]-1 are unit rows with the 1 on the diagonal |
| ConstraintMatrix.ColumnBlocksCover | alm_c++/fitting.cpp:395 | the final icol equals N |
| ConstraintMatrix.ConstraintPrefixStep | alm_c++/fitting.cpp:385-396 | the rows before order o + 1 are those before order o followed by order o's block |
| ConstraintMatrix.ClearRows | alm_c++/fitting.cpp:339-344 | the first P rows of C and entries of d are zeroed, and nothing else changes |
| ConstraintMatrix.WriteRow | alm_c++/fitting.cpp:390-393 | one reduced vector is written into its row at its order's columns |
| ConstraintMatrix.PlaceOrder | alm_c++/fitting.cpp:387-394 | one order's reduced vectors fill consecutive rows, and irow advances by their number |
| ConstraintMatrix.WriteUnitRows | alm_c++/fitting.cpp:371-374 | the harmonic unit rows and reference values are written |
| ConstraintMatrix.PlaceOrders | alm_c++/fitting.cpp:385-396 | the orders from minorder on are laid after the unit rows, so the first P rows are C, and the final irow equals P |
| ConstraintMatrix.BuildConstraints | alm_c++/fitting.cpp:326-396 | without reference mode, or with a usable reference file, C and d are built in the first P rows. Otherwise it fails with the reason: file unreadable (354), count mismatch (367), marker missing (382). Rows from P on are untouched |

## Left out

- The floating-point solvers are inputs of the model (`lstsq`, `glse`, `singular`, `reduce`): `dgelss_` (line 110), `dgglse_` (236), `dgesdd_` (822) and the Eigen `FullPivLU` rank and image (309-311). Their assumed shapes are `LstsqShape`, `GlseShape`, `SvdShape` and `ReduceShape`: the answers have the lengths LAPACK writes, and the reduction keeps a basis drawn from the constraints, no longer than the constraint set or the group count. Their numerics, `LWORK`/`INFO` and the workspace are not modelled.
- Real arithmetic is exact: rounding in the products, the sums of squares and gamma's integer-to-double division is not modelled, and `int` overflow of `factorial` and of the cursors is not modelled.
- Output is not modelled: `std::cout` diagnostics, the rank-deficiency warnings (115-116, 194-201), `sqrt` and the percentage error (123-124, 249-250), and `timer`. The values these print (rank, f_square, residual) are returned in `Report` instead.
- The binary streams of displacements and forces (31-35, 437-442) are given as the snapshot sequences `disp` and `force`. Failure to open them is not modelled.
- The harmonic reference file (352-382) is the datatype `ReferenceFile`: it cannot be opened, it has no marker line, or it has a marker with a count and values. Line-by-line parsing and end-of-file behaviour are not modelled, and a count that matches with fewer values than announced is excluded by a precondition.
- `error->exit` stops the program. The model returns `Failed` with the reason and leaves `params` unset.
- Fit.Fitting.FitWithoutConstraints, Fit.Fitting.FitWithConstraints and Fit.Fitting.FitMain require N <= M. fsum has M entries, yet the source copies N of them (73, 254-256) and passes M as the solver's leading dimension, so it runs past the buffer when N > M.
- AtomMap.InprimIndex requires an atom of the primitive cell to match. The source returns an uninitialised value otherwise.
- Combinatorics.Factorial is defined for n >= 0 only. The source recursion does not terminate for negative n.
- Combinatorics.Insort stands for `interaction->insort`, whose body is not part of this model. Any sort gives the same result (`Combinatorics.SortedPermutationUnique`).
- The externals are model inputs. Their bodies are not part of this model:
  - `CombinationWithRepetition` becomes the list of combinations per representative atom;
  - `get_xyzcomponent` becomes the list of direction assignments per order;
  - `is_incutoff` becomes `inCutoff`;
  - `sort_tail` becomes `sortTail`;
  - the neighbour lists `intpairs` and their sorting (591-594) become the combinations.
- The `FcProperty` comparison operator is taken to order records by their index tuple alone, since lookups pass coefficient 1.0 and group 1. The term index is then a map from tuples to records.
- The `Constraint` comparison is taken to be equality of weight vectors, so `const_translation[order]` is a `set<seq<real>>`. Its iteration order, which fixes the column order of the matrix handed to `FullPivLU` (301-307), is not modelled. The reduction takes the set.
- `eps10` (constants.h is not part of this model) is taken to be 1e-10.
- `eps12` (constants.h is not part of this model) is taken to be 1e-12.
- The commented-out and dead code (739-801) is not modelled.
- Memory allocation is not modelled.
- The member arrays `const_mat` and `const_rhs` are local to the constrained fit in the model.

## Findings

| source | as written | input that shows it | evidently intended | confidence | as-written member | corrected member |
|---|---|---|---|---|---|---|
| alm_c++/fitting.cpp:176-191 | the rank-check buffer holds all of A column-major (stride M), then all of C column-major (stride P), and is passed to `rank` as an (M+P) x N column-major matrix | A = [[1,1],[0,0]], C = [[1,1]]: [A; C] has rank 1, but the 3x2 matrix read from the buffer has a non-zero 2x2 minor, so the reported rank is 2 | the buffer is the column-major form of [A; C], with stride M+P, so that the reported rank is the rank of the stacked system | not executed | Layout.StackForRank, Layout.RankBufferCounterexample | Layout.StackColumnMajor (used by Fit.IntendedStackedRank), Layout.ReadColumnMajorInverse |

The constrained fit reports the rank as the source computes it (`Fit.StackedRank`, the value the rank-deficiency warning prints). The corrected check is `Fit.IntendedStackedRank`. `Fit.ReportedRankIsIntended` names the shapes where the two agree: a single column, or no rows in A or in C. The bad value affects only the warning, not the solve.
