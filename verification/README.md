# GSAS-II refinement and path helpers in Dafny

This project models part of GSAS-II, a crystallographic structure refinement package. It covers two groups of routines:

- **The least-squares engine of `GSASIImath.py`.**
  - `pinv`: the Moore-Penrose pseudo-inverse through a singular value decomposition, with a count of the singular values cut to zero.
  - `HessianLSQ`: the Levenberg-Marquardt refinement. It normalises the Hessian by its diagonal and damps it with `lam`. It retries with ten times the damping while chi-square rises. When the cycles end, it builds the covariance matrix.
  - `HessianSVD`: the undamped variant, one solve per cycle.
  - `getVCov`: picks a variance-covariance sub-matrix by variable name.
  - `adjHKLmax`: rounds grid maxima up to multiples of 6 or 4.
- **Configuration and installation helpers of `GSASIIpath.py`.**
  - `intver`/`fmtver`: version strings to and from integers.
  - `SetConfigValue`: merges settings into the configuration dictionary.
  - `addPrevGPX`: keeps the five most recent project files.
  - `SetVersionNumber`/`GetVersionNumber`: tracks svn revisions.
  - `setsvnProxy`: builds the svn proxy options.
  - `commonPath` (with `fullsplit`): the shared-path test.
  - `DownloadG2Binaries` and `SetBinaryPath`: choose a binary distribution by numpy version.

How the numerics are modelled:

- Floating-point numbers are modelled as reals.
- The routines the refinement calls are oracles in a `Numerics` record: the residual function `func`, the Hessian `Hess`, `np.sqrt`, `nl.svd` and the R diagonal of `nl.qr`.
- The only assumption about them is that singular values are non-negative.
- The damping factor `lam` is always `10**e` for a whole number `e`. A ghost exponent tracks `e`, and it is what makes the retry loop terminate.

Each refinement routine is a method with loops, proved equal to a recursive specification function (`HessianLsqSpec`, `HessianSvdSpec`). The lemmas state the routine's promises about that function.

Modules, one per file:

| module | file |
|---|---|
| `Wrappers` | `wrappers.dfy` |
| `LinAlg` | `linalg.dfy` |
| `PseudoInverse` | `pinv.dfy` |
| `Refinement` (the shared cycle start) | `refinement.dfy` |
| `DampedSolver` | `hessian_lsq.dfy` |
| `FixedStepSolver` | `hessian_svd.dfy` |
| `Lists` | `lists.dfy` |
| `Covariance` | `vcov.dfy` |
| `HklLimits` | `hkl.dfy` |
| `VersionStrings` | `versions.dfy` |
| `ConfigSettings` | `config.dfy` |
| `SvnState` | `svn.dfy` |
| `PathPrefix` | `paths.dfy` |
| `BinaryChoice` | `binaries.dfy` |

## Model

| member | source | states |
|---|---|---|
| PseudoInverse.MaxOf | GSASIImath.py:100 | `np.maximum.reduce(s)` of a non-empty spectrum is one of the singular values and no singular value exceeds it |
| PseudoInverse.Reciprocals | GSASIImath.py:101 | every singular value above the cutoff is replaced by a positive number whose product with it is 1; every other one is replaced by 0 |
| PseudoInverse.KeptPlusCut | GSASIImath.py:101-102 | the non-zero reciprocals and the cut values together account for all n singular values, so `nzero` is the number of cut values |
| PseudoInverse.CutCountZero | GSASIImath.py:101-102 | no value is cut exactly when every singular value exceeds the cutoff, and never more values are cut than there are |
| PseudoInverse.Pinv | GSASIImath.py:99-105 | the LinAlgError is raised exactly when the decomposition does not converge; the ValueError of reducing an empty spectrum happens exactly for an empty spectrum; otherwise the result is n by n and `nzero` counts the singular values at or below `rcond * max(s)`, being 0 exactly when all exceed it |
| PseudoInverse.PinvAllCut | GSASIImath.py:99-105 | when no singular value exceeds the cutoff, every value counts as a zero and the pseudo-inverse is the zero matrix |
| PseudoInverse.CutCountAll | GSASIImath.py:101-102 | when every value is at or below the cutoff, all of them are counted as zeros |
| LinAlg.SumSq | GSASIImath.py:172 | chi-square, `np.sum(M**2)`, is never negative |
| LinAlg.DivBy | GSASIImath.py:179 | `Yvec /= Adiag` gives entries that, multiplied back by the diagonal, are the old entries |
| LinAlg.DivOuter | GSASIImath.py:178-180 | `Amat /= np.outer(Adiag, Adiag)` gives entries that, multiplied back by both diagonal factors, are the old entries |
| LinAlg.DampOnlyScalesDiagonal | GSASIImath.py:185-186 | `Amat*(One+Lam)` leaves every off-diagonal entry unchanged and multiplies each diagonal entry by 1 + lam; at lam 0 it is the undamped matrix |
| LinAlg.Pow10AboveTen | GSASIImath.py:198-209 | `10**e > 10` holds exactly when e > 1, so the loop test `lam > 10.` is a test on the exponent |
| LinAlg.SmallIndicesSpec | GSASIImath.py:190 | the psing list from the QR diagonal holds exactly the indices whose entry is below 1e-14, in ascending order |
| Refinement.NormalisedUnitDiagonal | GSASIImath.py:174-186 | with an exact square root and a non-negative Hessian diagonal, a cycle that passes the singularity test works on a normalised Hessian whose diagonal is all 1, so the damped matrix has 1 + lam on every diagonal entry |
| Refinement.StartCycle | GSASIImath.py:169-180 | a cycle that gets past the singularity test has a non-zero square-rooted diagonal and a non-negative chi-square |
| DampedSolver.TrialsShape | GSASIImath.py:184-206 | an accepted trial moves x by that trial's step (`x0 += Xvec`); every ending that evaluated a trial point has made at least one trial |
| DampedSolver.TrialsLambda | GSASIImath.py:184-210 | the last trial of a retry loop entered with 10**e was made at lam == 10**(e + trials - 1), and it produced the step and chi-square the loop ended with. The loop leaves lam / 10 after an acceptance and lam * 10 after a stall |
| DampedSolver.CycleLambda | GSASIImath.py:184-222 | in a cycle whose retry loop accepted or stalled, lamMax becomes max(lamMax, lam) with the lam left by the loop: the last trial's lam / 10 on acceptance, or times 10 on a stall. A converged cycle returns that lamMax. Otherwise the next cycle starts from that lam, with the moved x, the counted evaluations and the cycle's deltaChi2 |
| DampedSolver.TrialsBound | GSASIImath.py:184-210 | the retry loop ends: entered with lam == 10**e it makes at most MaxTrials(e) trials, and a stall leaves lam above 10 |
| DampedSolver.DoubledStep | GSASIImath.py:210 | each `chitol *= 2` doubles the tolerance: chitol after n + 1 rejections is twice chitol after n |
| DampedSolver.TrialsTolerance | GSASIImath.py:183-210 | the acceptance rule: the trial that ends a retry loop with an acceptance has chisq1 <= chisq0 * (1 + chitol), and the trial that ends it with a stall has chisq1 > chisq0 * (1 + chitol), where chitol is ftol doubled once per earlier trial |
| DampedSolver.TrialsRejected | GSASIImath.py:183-210 | the rejection rule: every trial j before the last one, and before a failed decomposition, evaluated a point with chisq1 > chisq0 * (1 + chitol doubled j times) at lam == 10**(e + j) |
| DampedSolver.TrialsStallRaises | GSASIImath.py:198-210 | with chisq0 >= 0 and chitol >= 0, a stall only follows a trial whose chi-square is above chisq0 |
| DampedSolver.Final | GSASIImath.py:223-241 | the covariance step keeps x and the cycle count, adds one evaluation, keeps lamMax and reports the residuals at x. A covariance is the pseudo-inverse of the normalised Hessian divided back by the outer product of the roots, with SVD0 equal to the number of singular values the final pinv cut, an empty psing list, the Converged and DelChi2 entries and the Xvec of the last cycle. A failed inversion reports SVD0 == -1, `Xvec: None`, no Converged entry and, unless maxcyc is 0, the indices where the R diagonal of the un-normalised Hessian is below 1e-14. The unbound-local error is raised exactly when no cycle bound Xvec and the inversion succeeds. The step raises the zero-root error exactly when a root of the Hessian diagonal at x is 0, the empty-spectrum error exactly when the pinv spectrum is empty, and otherwise returns: with the covariance when the inversion succeeds and an Xvec is bound, without it (and without DelChi2) when the decomposition fails |
| DampedSolver.StallConverges | GSASIImath.py:198-221 | a stalled retry loop with chisq0 > 0 and ftol >= 0 has a negative deltaChi2, so the refinement stops as converged with x unchanged |
| DampedSolver.EarlyExits | GSASIImath.py:174-192 | the two early returns of a cycle keep x, give no covariance and report SVD0 == -1. The singular-diagonal return carries the mask after one evaluation. The failed-decomposition return carries the QR psing list after the evaluations of the trials made so far |
| DampedSolver.CyclesCount | GSASIImath.py:167-241 | the reported cycle count never passes maxcyc. Converged true comes only from a cycle before maxcyc whose deltaChi2 is below ftol. Converged false comes only when the cycles ran out. Every return without a covariance has SVD0 == -1 |
| DampedSolver.CyclesEffort | GSASIImath.py:167-224 | in terms of the cycle count alone: every completed cycle costs at least two evaluations (its start and at least one trial point) and the covariance step one more; lamMax never decreases |
| DampedSolver.CyclesEvaluations | GSASIImath.py:167-224 | the evaluation count exactly: one per cycle start entered, one per trial point of every retry loop, and one for the covariance step unless a cycle returned early. Every cycle entered advances num cyc, except the one that returned early or converged; when the cycles ran out, num cyc equals the number of cycle starts |
| DampedSolver.HessianLsqBookkeeping | GSASIImath.py:152-241 | for a whole refinement: num cyc <= maxcyc; nfev is exactly the cycle starts plus the trial points plus the final evaluation when no cycle returned early, and at least 2 * num cyc + 1; lamMax >= 10**lamda; no covariance implies SVD0 == -1; Converged is true only below maxcyc with DelChi2 < ftol |
| DampedSolver.NoCyclesNoCovariance | GSASIImath.py:167-241 | with maxcyc <= 0 no covariance is ever returned: the call returns exactly when the roots at x0 are non-zero and the final decomposition fails, and then gives x0 after one evaluation, with an empty psing list when maxcyc is 0; a successful final inversion hits the unbound Xvec |
| DampedSolver.CyclesFaults | GSASIImath.py:167-241 | the cycles from any point stop at EndPoint (the start of the cycle that returns early or raises, or where the covariance step is taken): a returned result carries that point; the chi-square division fails only where that point's chi-square is 0; the zero-root error only where a root there is 0; the empty-spectrum error only where the roots are non-zero; the unbound Xvec only when no cycle ran |
| DampedSolver.HessianLsqFaults | GSASIImath.py:152-241 | the same for a whole refinement from x0 and 10**lamda: every fault is located at the point where the cycles stop, and the unbound Xvec happens only with maxcyc <= 0 |
| DampedSolver.RetryLoop | GSASIImath.py:184-210 | the inner `while True` loop computes the trial sequence's ending, leaves lam at 10 to the power of the exponent it ends on, and adds one evaluation per trial |
| DampedSolver.RunCycle | GSASIImath.py:168-222 | one pass of the outer loop body either returns what the specification's cycle returns, converges, or hands the next cycle the state the specification continues from |
| DampedSolver.HessianLSQ | GSASIImath.py:152-241 | the imperative refinement returns exactly the outcome of the specification, on which the lemmas above state the bookkeeping |
| FixedStepSolver.SvdFinal | GSASIImath.py:336-354 | the covariance step keeps x and the cycle count, adds one evaluation, reports the residuals at x, lamMax 0 and no Xvec entry, and never raises the unbound-local error. A covariance is the pseudo-inverse divided back by the outer product of the roots, with SVD0 equal to the number of singular values cut, an empty psing list and the Converged and DelChi2 entries. A failed inversion reports SVD0 == -1, no Converged or DelChi2 entry and, unless maxcyc is 0, the QR psing list of the normalised Hessian. The step raises the zero-root error exactly when a root at x is 0, the empty-spectrum error exactly when the pinv spectrum is empty, and otherwise returns, with the covariance exactly when the inversion succeeds |
| FixedStepSolver.UndampedIsDampedAtZero | GSASIImath.py:314-324 | the solve of HessianSVD is the damped trial of HessianLSQ at lam == 0 |
| FixedStepSolver.SvdCyclesKeepX | GSASIImath.py:299-354 | HessianSVD never moves x0; lamMax is 0; each completed cycle costs two evaluations; no covariance implies SVD0 == -1; the unbound-local error never happens |
| FixedStepSolver.ContinuingRunsOut | GSASIImath.py:299-335 | at a point whose deltaChi2 is at least ftol, every cycle repeats the same computation, so the refinement runs to maxcyc and reports Converged false |
| FixedStepSolver.StopsAtFirst | GSASIImath.py:325-334 | at a point whose deltaChi2 is below ftol the refinement stops at the current cycle |
| FixedStepSolver.SvdEarlyExits | GSASIImath.py:305-319 | the two early returns of a cycle keep x, give no covariance and report SVD0 == -1 and lamMax 0 after the one evaluation at the cycle start: the mask of roots below 1e-14, or, when the decomposition fails, the indices where the R diagonal of the normalised Hessian is below 1e-14 |
| FixedStepSolver.SvdCyclesFaults | GSASIImath.py:299-354 | since x0 never moves, the cycles raise: never the zero-root error; the chi-square division error exactly when the first start inverts and its chi-square is 0; the empty-spectrum error exactly when the first start's normalised Hessian has an empty spectrum |
| FixedStepSolver.SvdInvertingReturns | GSASIImath.py:299-348 | cycles at a point whose normalised Hessian inverts and whose chi-square is not 0 always return, whether they converge or run out |
| FixedStepSolver.SvdFinalAfterInverse | GSASIImath.py:336-348 | the covariance step at a point whose cycle start inverted returns the covariance |
| FixedStepSolver.HessianSvdResult | GSASIImath.py:288-354 | a whole refinement returns x0 itself, lamMax 0, a cycle count of 0 or maxcyc and 2 * num cyc + 1 or + 3 evaluations, and never the unbound-local error. It raises the zero-root error exactly when maxcyc <= 0 and a root at x0 is 0, the chi-square division error exactly when a cycle runs and the first start inverts with chi-square 0, and the empty-spectrum error exactly when the normalised Hessian at x0 has an empty spectrum; otherwise it returns |
| FixedStepSolver.SvdNoCycles | GSASIImath.py:299-354 | with maxcyc <= 0 the refinement returns exactly when the roots at x0 are non-zero and the spectrum is not empty, and then makes one evaluation and gives a covariance exactly when the inversion succeeds, with Converged false and DelChi2 -10 |
| FixedStepSolver.HessianSVD | GSASIImath.py:288-354 | the imperative refinement returns exactly the outcome of its specification |
| Lists.IndexOf | GSASIImath.py:373 | `list.index` finds the first occurrence, and fails exactly when the name is absent |
| Covariance.GetVCov | GSASIImath.py:369-380 | the result is n by n for n requested names, and each entry is the covariance of the two names, or 0 when either is not refined |
| Covariance.UnrefinedIsZero | GSASIImath.py:372-375 | a name not in varyList has a zero row and column |
| Covariance.RefinedIsRead | GSASIImath.py:373 | two refined names read the full matrix at their first positions in varyList |
| Covariance.EntrySymmetric | GSASIImath.py:369-375 | a symmetric full matrix gives a symmetric sub-matrix |
| Covariance.AllNamesGiveFullMatrix | GSASIImath.py:369-375 | asking for all of varyList, without repeats, gives back the full matrix |
| HklLimits.RoundUp | GSASIImath.py:3108 | `int(ceil(h/m))*m` is a multiple of m, at least h and less than h + m |
| HklLimits.RoundUpLeast | GSASIImath.py:3108 | it is the least multiple of m that is at least h |
| HklLimits.RoundUpIdempotent | GSASIImath.py:3108 | rounding a rounded value changes nothing |
| HklLimits.Adjusted | GSASIImath.py:3107-3114 | the first three maxima become the least multiples of their period at or above them, and any further entries are unchanged |
| HklLimits.AdjustedIdempotent | GSASIImath.py:3107-3114 | adjusting adjusted maxima changes nothing |
| HklLimits.AdjHklMax | GSASIImath.py:3099-3114 | the in-place update leaves Hmax equal to the adjusted old contents |
| VersionStrings.ShowNat | GSASIIpath.py:30 | `str(n)` is a decimal numeral without leading zeros |
| VersionStrings.Split | GSASIIpath.py:31 | `s.split('.')` always has at least one piece |
| VersionStrings.SplitFirst | GSASIIpath.py:31 | a piece without a dot comes out of split whole, before what follows the dot |
| VersionStrings.ValueOfShow | GSASIIpath.py:30-31 | the digits of `str(n)` have the value n |
| VersionStrings.ShowOfValue | GSASIIpath.py:30-31 | `str(int(d)) == d` for a numeral without leading zeros |
| VersionStrings.ParseShow | GSASIIpath.py:30-31 | `int(str(i)) == i`, and `str(i)` holds no dot |
| VersionStrings.ThousandsDivMod | GSASIIpath.py:30 | `v // 1000` and `v % 1000` recover q and r from 1000 * q + r when 0 <= r < 1000 |
| VersionStrings.IntVerOfFmtVer | GSASIIpath.py:30-31 | every whole number v survives `intver(fmtver(v))`, negative ones included, on unbounded integers |
| VersionStrings.FmtVerOfIntVer | GSASIIpath.py:30-31 | 'a.b' with canonical numerals, b below 1000, followed by nothing or by more dot components, encodes to 1000 * a + b and `fmtver` gives back 'a.b' |
| VersionStrings.SingleComponent | GSASIIpath.py:31 | a version without a dot is broadcast against (1000, 1) and encodes to 1001 times its value |
| ConfigSettings.Merged | GSASIIpath.py:46-60 | after the merge, a key of parmdict is present exactly when its entry is a tuple, or a list whose value is not None, not '' and not the default; it then holds the tuple or the value. Every other key keeps its old presence and value |
| ConfigSettings.MergeIdempotent | GSASIIpath.py:46-60 | setting the same values twice is setting them once |
| ConfigSettings.DefaultClears | GSASIIpath.py:52-59 | a list whose value is the default, None or '' removes whatever was stored for its key |
| ConfigSettings.StoreOne | GSASIIpath.py:52-60 | one round of the loop is the merge of a one-key dictionary |
| ConfigSettings.MergeStep | GSASIIpath.py:51-60 | merging one more key after a partial merge is merging the larger dictionary, so the order of the keys does not matter |
| ConfigSettings.ConfigDict.Store | GSASIIpath.py:52-60 | one round of the loop leaves the dictionary merged with that key |
| ConfigSettings.ConfigDict.SetConfigValue | GSASIIpath.py:46-60 | the dictionary afterwards is the old one merged with parmdict |
| ConfigSettings.RemoveFirst | GSASIIpath.py:69-71 | `pop(index(fil))` removes the first occurrence of fil and keeps every other entry in order; a list without fil is unchanged |
| ConfigSettings.RecentShape | GSASIIpath.py:62-78 | the opened file comes first. A changed list has at most five entries: one more than before when the file was new, as many when it was moved. Every other entry was in the old list |
| ConfigSettings.RecentIdempotent | GSASIIpath.py:62-78 | opening the same file twice in a row is opening it once |
| ConfigSettings.RecentDistinct | GSASIIpath.py:62-78 | a list without repeats stays without repeats |
| ConfigSettings.RemoveFirstDistinct | GSASIIpath.py:69-71 | in a list without repeats, removing the first occurrence removes every occurrence |
| ConfigSettings.PreviousFiles.AddPrevGpx | GSASIIpath.py:62-78 | nothing changes without the key; a None list becomes the one-file list; otherwise the list becomes the recent-files list |
| SvnState.WordLength | GSASIIpath.py:92 | the first word of `split()` ends at the first whitespace |
| SvnState.AfterRevision | GSASIIpath.py:91-96 | the version never decreases; an unparsable string leaves it unchanged; a parsed revision makes it the larger of the two |
| SvnState.AfterAllIsMax | GSASIIpath.py:82-96 | after any sequence of calls the version is the maximum of -1 and every revision parsed |
| SvnState.ExpandedKeyword | GSASIIpath.py:85-92 | an expanded keyword `...: N $` gives revision N |
| SvnState.UnexpandedKeyword | GSASIIpath.py:85-96 | a string without a colon, such as an unexpanded keyword, gives no revision and leaves the version at -1 |
| SvnState.Revisions.SetVersionNumber | GSASIIpath.py:82-96 | the version becomes the larger of itself and the parsed revision, or stays as it was |
| SvnState.Revisions.GetVersionNumber | GSASIIpath.py:98-104 | the version is reported exactly when it is above 1000, and 'unknown' otherwise |
| SvnState.StripLeft | GSASIIpath.py:214-215 | leading whitespace is removed and the rest starts with a non-space |
| SvnState.StripRight | GSASIIpath.py:214-215 | trailing whitespace is removed and the rest ends with a non-space |
| SvnState.StripEnds | GSASIIpath.py:214-215 | `strip()` leaves nothing, or something that starts and ends with a non-space |
| SvnState.StripSurround | GSASIIpath.py:214-215 | `strip()` removes whitespace only: the input is the result with whitespace around it |
| SvnState.ProxyShape | GSASIIpath.py:209-223 | two options for a non-blank host, two more for a non-blank port with it, then the extra items in order; a port without a host adds nothing |
| SvnState.SvnProxy.AppendHost | GSASIIpath.py:216-221 | appends the host and port options to the list |
| SvnState.SvnProxy.Extend | GSASIIpath.py:222-223 | appends every extra item, in order |
| SvnState.SvnProxy.SetSvnProxy | GSASIIpath.py:209-223 | the list becomes the proxy options for the stripped host and port, then the extra items |
| PathPrefix.CommonPath | GSASIIpath.py:1438-1440 | the pairwise comparison answers True exactly when one component list is a prefix of the other |
| PathPrefix.PrefixesAgree | GSASIIpath.py:1438-1439 | lists that differ at a common position do not share a path |
| PathPrefix.SharesSymmetric | GSASIIpath.py:1429-1440 | sharing a path does not depend on the argument order, and every path shares one with itself |
| PathPrefix.SiblingsShareAsWritten | GSASIIpath.py:1415-1440 | as written, /a/b/c/d and /a/b/c/e share a path, and so do /opt/conda and /usr |
| PathPrefix.DirectoriesCompared | GSASIIpath.py:1430-1433 | compared on their own components, /a/b/c shares a path with /a/b/c/d, while /a/b/c/d and /a/b/c/e do not |
| BinaryChoice.AtMost | GSASIIpath.py:870-879 | the newest listed version at or below the given one, none exactly when every listed version is newer |
| BinaryChoice.Above | GSASIIpath.py:1097-1102 | the oldest listed version newer than the given one, none exactly when there is no newer one |
| BinaryChoice.RestAbove | GSASIIpath.py:1097-1102 | in a sorted list every entry after one above the given version is above it too |
| BinaryChoice.FloorOfSorted | GSASIIpath.py:870-879 | where a left-to-right scan of a sorted list stops, the entry before is the newest at or below the version and the entry there the oldest above it |
| BinaryChoice.SelectDistVersion | GSASIIpath.py:857-879 | no choice exactly when nothing is listed; the oldest listed version for an older numpy; otherwise the newest listed version not newer than numpy |
| BinaryChoice.BracketVersions | GSASIIpath.py:1095-1102 | vmin is the newest listed version not newer than numpy and vmax the oldest newer one, each None when there is none |
| BinaryChoice.SelectionListed | GSASIIpath.py:857-879 | the chosen version is always listed; unless numpy is older than everything listed, it is not newer than numpy; at or past the newest it is the newest |

## Left out

- Floating point: numbers are reals. Rounding and the value of `10.**k` as a double are not modelled. NaN and infinity are not modelled either.
- The two unguarded divisions that produce inf or NaN in numpy end in explicit faults (`ChiSquareZero`, `DiagonalZero`):
  - `(chisq0-chisq1)/chisq0` with chisq0 == 0;
  - the final normalisation with a zero square-rooted diagonal entry.
- `func`, `Hess`, `np.sqrt`, `nl.svd` and `nl.qr` are opaque oracles. Only their shapes and the non-negativity of singular values are relied on. The matrix products of `np.inner` and `np.dot` are written out; nothing about their numerical values is proved.
- The ValueError of `np.maximum.reduce` on an empty spectrum (n == 0) is the `EmptySpectrum`/`EmptyReduction` outcome.
- Shape mismatches between the oracles' results and x0 are not modelled. The vector operations work on the common prefix.
- `Print`, timing, `G2fil.G2Print` and `refPlotUpdate` are left out: they do not affect the returned values.
- The `Histograms = args[0][0]` lookup (GSASIImath.py:216 and 329) is assumed to succeed. With the default `args=()` it raises IndexError at the end of the first cycle that gets that far, and no result is returned; the model does not represent that error.
- Aliasing is not modelled. `x0 = np.array(x0, ndmin=1)` copies the caller's parameters, so the in-place `x0 += Xvec` never reaches the caller. But `Yvec /= Adiag` and `Amat /= Anorm` update, in place, the arrays that `Hess` returned. The model treats them as fresh values, so a `Hess` that hands out arrays it keeps would see them changed, and the model does not capture that.
- DampedSolver.TrialMaker, FixedStepSolver.SvdSolver: a trial or solve handed a cycle start that is not ready returns `StepEmpty`. Such a start never occurs in the refinement.
- The maxcyc of -1 described in the docstrings is not honoured by the code, which loops `while icycle < maxcyc`. The model follows the code.
- Python `int()` is modelled for an optional sign followed by the ASCII digits 0-9. Python also accepts surrounding whitespace, underscores between digits and non-ASCII Unicode decimal digits such as Arabic-Indic ones; none of these is modelled, so ParseInt returns None where Python would give a number.
- Pinv: requires rcond >= 0, and every solver member requires xtol >= 0. The source accepts a negative tolerance. The cutoff is then negative, and `1./s` of a zero singular value is infinity, which the model does not represent.
- IntVerOfFmtVer: integers are unbounded. `intver` multiplies by an int64 numpy array, so its result wraps once 1000 * a leaves the int64 range, and a component too large for int64 raises OverflowError. FmtVerOfIntVer and SingleComponent hold on unbounded integers in the same way.
- CyclesEffort: bounds nfev in terms of num cyc alone, and only says that lamMax never decreases. CyclesEvaluations and HessianLsqBookkeeping state the exact count, and CycleLambda states the lamMax each cycle records.
- HessianLsqBookkeeping: gives lamMax over a whole refinement only as a lower bound, 10**lamda. The exact value each cycle records is stated one cycle at a time by CycleLambda.
- ConfigSettings.Datum: Python's equalities across types (True == 1, 1 == 1.0) are not modelled in the comparison with the default.
- `os.path.abspath`, `expanduser`, `normcase` and `dirname` are taken as given. CommonPath and DirnameParts work on the component lists that `fullsplit` produces. The recursion of `fullsplit` over `os.path.split` is not modelled.
- Gathering the available binary versions is not modelled: the svn listing, `glob`, and parsing directory names through `intver`. The sorted dictionary keys are given as a strictly increasing list.
- The search path list, `TestSPG` and the file-system checks of `SetBinaryPath` are not modelled, and neither are the download of `DownloadG2Binaries` and its messages.
- `GetConfigValue` and the rest of the configuration plumbing are not part of this model.
- `adjHKLmax` uses `math.ceil` on a float quotient. The model rounds up exactly on integers, so it does not model float precision for very large maxima.

## Findings

| source | as written | input that shows it | evidently intended | confidence | as-written member | corrected member |
|---|---|---|---|---|---|---|
| GSASIIpath.py:1415-1440 | `fullsplit` applies `os.path.dirname` on its first call, so `commonPath` compares the parent directories of its arguments | `commonPath('/a/b/c/d', '/a/b/c/e')` answers True, against the docstring's own example; so does `commonPath('/opt/conda', '/usr')` | directories are compared on their own components: /a/b/c shares a path with /a/b/c/d, while /a/b/c/d and /a/b/c/e do not | medium; not executed | PathPrefix.SiblingsShareAsWritten | PathPrefix.DirectoriesCompared |
