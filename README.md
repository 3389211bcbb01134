# dexterMML EM core, modelled in Dafny

This project models the exact bookkeeping of dexterMML's EM estimation engine
for item response theory models, over Dafny `real`:

- The sparse 2PL E-step and its reduced log-likelihood.
- The quadrature prior `gaussian_pts`.
- The dichotomous 2PL item objective `ll_2pl_dich`.
- The two 2PL EM drivers: `estimate_2pl_dich`, with 60 fixed cycles, and
  `estimate_2pl_dich_multigroup`, which pins a reference group, stops on
  convergence and lays out `obs`.
- The `oakes` finite-difference Jacobian.
- The nominal response model (NRM) driver `estimate_nrm` with its `exp_at`
  table and additive stop code, and the wrapper `loglikelihood_nrm`.

Persons are stored CSR style (compressed sparse rows): person `p` owns
entries `pcni[p] .. pcni[p+1]` of the flat item-index array `pi` and the
response array `px` (module `Responses`).

The numerical primitives `exp`, `log`, `sqrt`, `pnorm`, `std::isinf` and
`is_finite` are fields of the datatype `Common.Math`. They are
uninterpreted, with extra facts assumed only where a lemma states them as a
`requires`:

- `exp` is positive.
- The CDF is monotone, or strictly monotone.
- `log` is non-positive on (0, 1).
- `exp` is additive.

The minimizers `dfpmin`, `D1min` and `nlm` are oracle parameters. So are
the NRM helpers `nrm_trace`, `estep` and `loglikelihood`.

The source changes things in place, and so does the model:

- E-step buffers (`r0`, `r1`, `thetabar`, `sumtheta`, `sumsig2`) are
  arrays updated by loops.
- Item parameters are arrays overwritten item by item.
- `mu`, `sigma`, `exp_at`, `obs` and `jacob` are arrays filled in loops.
- The item objective is a class whose constructor sets its fields.

Each method is proved equal to a specification function: `EStepSpec`,
`FixedSpec`, `MultigroupSpec`, `OakesSpec`, `NrmSpec` and others. The
properties the source promises are lemmas about those functions.

Modules, one per file:

| module | file |
|---|---|
| `Common` | `common.dfy` |
| `Quadrature` | `quadrature.dfy` |
| `Responses` | `responses.dfy` |
| `EStep2PL` | `estep2pl.dfy` |
| `EStepProperties` | `estep_props.dfy` |
| `Item2PL` | `item2pl.dfy` |
| `MStep2PL` | `mstep.dfy` |
| `EM2PL` | `em2pl.dfy` |
| `Oakes` | `oakes.dfy` |
| `NRM` | `nrm.dfy` |

Behaviour of the code that is easy to misread, which the model follows:

- `estimate_nrm` checks `ll < old_ll` right after the E-step, before the
  item fits (src/nrm_est.cpp:78-82), not after the group update.
- It adds 4 to `stop` whenever `iter >= max_iter - 1`
  (src/nrm_est.cpp:133-134). A run that converges or breaks on its last
  allowed pass therefore also carries the 4.
- `oakes` perturbs every group's mean and sd, the reference group's
  included: `npar = 2 (nit + ng)`. Its group update pins no group
  (src/est_2PL_dich.cpp:455, 499-503).
- No group update checks for a negative variance before `sqrt`.

## Model

| member | source | states |
|---|---|---|
| Quadrature.GaussianPts | src/est_2PL_dich.cpp:22-34 | returns the cell masses divided by their total; `None` when the total is 0, where the source's division yields NaN |
| Quadrature.FillMasses | src/est_2PL_dich.cpp:26-29 | entry `i` is `pnorm(theta[i]+half) - pnorm(theta[i]-half)`, with `half = (theta[1]-theta[0])/2` |
| Quadrature.DivideBy | src/est_2PL_dich.cpp:31 | every entry is divided by the total and no other state changes |
| Quadrature.WeightsSumToOne | src/est_2PL_dich.cpp:24-33 | the weights have one entry per node and sum to exactly 1 |
| Quadrature.WeightsNonNegative | src/est_2PL_dich.cpp:26-31 | with a monotone CDF and an increasing grid, every weight is non-negative |
| Quadrature.WeightsDefined | src/est_2PL_dich.cpp:26-31 | with a strictly increasing CDF (sd > 0), the total is never 0 and every weight is positive |
| Responses.NumResponsesSpan | src/est_2PL_dich.cpp:64 | the responses of the first `n` persons number `pcni[n] - pcni[0]` |
| EStep2PL.ComputePriors | src/est_2PL_dich.cpp:275-277 | one `gaussian_pts` column per group, in group order; `None` as soon as one group's weights are undefined |
| EStep2PL.ZeroMatrix | src/est_2PL_dich.cpp:280-281 | `mat.zeros()`: every cell is 0 |
| EStep2PL.ZeroVector | src/est_2PL_dich.cpp:282 | `v.zeros()`: every entry is 0 |
| EStep2PL.AddColumn | src/est_2PL_dich.cpp:313 | `mat.col(j) += v`: column `j` gains `v` and every other column is unchanged |
| EStep2PL.AddVector | src/est_2PL_dich.cpp:75 | `v += w`, entrywise |
| EStep2PL.UnnormalizedPosterior | src/est_2PL_dich.cpp:298-306 | the prior times, for each of the person's entries, the item trace when `px == 1` and its complement otherwise |
| EStep2PL.ScatterPerson | src/est_2PL_dich.cpp:315-321 | each entry adds the posterior to column `pi[indx]` of `r1` when `px == 1`, of `r0` otherwise; every cell gains exactly its scatter |
| EStep2PL.ScatterStep | src/est_2PL_dich.cpp:315-321 | after person `p`, `r0`/`r1` hold the scatter of persons `0 .. p` |
| EStep2PL.GroupStep | src/est_2PL_dich.cpp:311-313 | records `thetabar[p]` and adds it and the posterior to group `pgroup[p]`'s sums, keeping the invariants for persons `0 .. p` |
| EStep2PL.SecondMoments | src/est_2PL_dich.cpp:325-326 | `sumsig2[g]` is `accu(sigma2.col(g) % square(theta))` for every group |
| EStep2PL.PersonStep | src/est_2PL_dich.cpp:297-321 | one person extends the loop invariant, or reports that a marginal likelihood `sp` vanished |
| EStep2PL.PersonPass | src/est_2PL_dich.cpp:295-322 | `ok` exactly when no person's `sp` is 0; then every buffer holds the statistics of all persons |
| EStep2PL.EStep | src/est_2PL_dich.cpp:269-327 | `ok` exactly when `EStepSpec` is defined; then `r0`, `r1`, `thetabar`, `sumtheta`, `sumsig2` and `ll` are exactly its results |
| EStep2PL.SingleGroupStep | src/est_2PL_dich.cpp:73-75 | records `thetabar[p]` and adds the posterior to `sigma2`, keeping the loop invariant |
| EStep2PL.SinglePersonStep | src/est_2PL_dich.cpp:59-84 | one person of the single-group loop extends its invariant, or reports a vanishing `sp` |
| EStep2PL.SinglePass | src/est_2PL_dich.cpp:57-84 | `ok` exactly when no `sp` is 0; then the buffers hold the statistics of all persons |
| EStep2PL.EStepSingle | src/est_2PL_dich.cpp:38-90 | the single-group E-step is the multigroup `EStepSpec` with one group holding everyone: same `r0`, `r1`, `thetabar` and `sumsig2` |
| EStep2PL.LL2PLDich | src/est_2PL_dich.cpp:230-266 | returns the sum over persons of `log(accu(posterior))` under the person's group prior; `None` on a degenerate prior |
| EStep2PL.ReducedMatchesEStep | src/est_2PL_dich.cpp:244-265 | the reduced log-likelihood equals the `ll` the full E-step accumulates at lines 307-309 |
| EStepProperties.TracesInUnit | src/est_2PL_dich.cpp:284-285 | every `itrace` value `1/(1+exp(-a(theta-b)))` lies strictly between 0 and 1 |
| EStepProperties.LikelihoodSign | src/est_2PL_dich.cpp:300-306 | multiplying by traces or complements keeps a non-negative (positive) prior non-negative (positive) |
| EStepProperties.NormalizeSumsToOne | src/est_2PL_dich.cpp:310 | `posterior / sp` sums to 1 when `sp != 0` |
| EStepProperties.PosteriorShape | src/est_2PL_dich.cpp:298-310 | a normalised posterior is non-negative, and sums to 1 unless `sp` vanished |
| EStepProperties.PosteriorSumsToOne | src/est_2PL_dich.cpp:307-310 | a person with `sp != 0` has a posterior summing to 1 |
| EStepProperties.AllPosteriorsSumToOne | src/est_2PL_dich.cpp:295-310 | when no `sp` vanishes, every person's posterior has one entry per node and sums to 1 |
| EStepProperties.PersonTotalIsCount | src/est_2PL_dich.cpp:315-321 | one person's entries add to `r0 + r1` exactly (number of entries) times the posterior's mass |
| EStepProperties.MatrixTotalIsCount | src/est_2PL_dich.cpp:295-322 | after `n` persons with unit posteriors, the total of `r0 + r1` is the number of their responses |
| EStepProperties.TotalMassIsResponseCount | src/est_2PL_dich.cpp:300-321 | the total mass of `r0` plus `r1` equals `pcni[np] - pcni[0]`, the number of responses |
| EStepProperties.MeansWithinGrid | src/est_2PL_dich.cpp:311 | with monotone CDFs and an increasing grid, every `thetabar[p]` lies between `theta[0]` and `theta[nt-1]` |
| EStepProperties.MeanWithinGrid | src/est_2PL_dich.cpp:307-311 | one person's posterior mean `accu(posterior % theta)` lies between the first and the last node |
| EStepProperties.ThetaSumOfMeans | src/est_2PL_dich.cpp:311 | the accumulated group total of posterior means equals the sum of those means over the group's persons |
| EStepProperties.SumThetaIsGroupSumOfMeans | src/est_2PL_dich.cpp:311 | `sumtheta[g]` is the sum of `thetabar[p]` over the persons with `pgroup[p] == g` |
| EStepProperties.GroupMassIsCount | src/est_2PL_dich.cpp:313 | with unit posteriors, the total mass of column `g` of `sigma2` is the number of group-`g` persons among those handled |
| EStepProperties.GroupMassIsGroupSize | src/est_2PL_dich.cpp:297-313 | the total mass of `sigma2.col(g)` equals group `g`'s person count |
| EStepProperties.EStepDefined | src/est_2PL_dich.cpp:275-310 | with strictly increasing CDFs (every sd > 0) and an increasing grid, the E-step is never degenerate (in exact arithmetic) |
| Item2PL.Item.constructor | src/d2pl_item.h:14-20 | `r1`, `r0` and `theta` are the first `ni` entries of the caller's buffers, and `n == ni` |
| Item2PL.Item.Value | src/d2pl_item.h:23-39 | minus the sum over the `n` nodes of `r1 log p + r0 log(1-p)`; the error `inf ll` instead when that sum is infinite |
| Item2PL.Item.Gradient | src/d2pl_item.h:42-59 | `g` is zeroed and gets one term per node in each component; `ok` exactly when both components are finite |
| Item2PL.Item.Hessian | src/d2pl_item.h:61-83 | `h(1,0) == h(0,1)`; the matrix is the node-by-node accumulation with `negative`, and exactly its negation without it |
| Item2PL.NegLogLikNonNegative | src/d2pl_item.h:25-31 | with non-negative counts and `log <= 0` on (0, 1), minus the log-likelihood is non-negative |
| Item2PL.GradientFromResiduals | src/d2pl_item.h:44-51 | `g[1] = -a * sum(res)` and `g[0] = -sum((b - theta) * res)`, with `res = (r0 - r1 e)/(e + 1)` per node |
| Item2PL.GradBFromResiduals | src/d2pl_item.h:46-50 | `g[1]` after `k` nodes is `-a` times the sum of their residuals |
| Item2PL.GradAFromResiduals | src/d2pl_item.h:46-50 | `g[0]` after `k` nodes is minus the `(b - theta)`-weighted sum of their residuals |
| Item2PL.H11ThroughTotals | src/d2pl_item.h:76-78 | the `h(1,1)` entry depends on the counts only through `r0[i] + r1[i]` |
| MStep2PL.Mean | src/est_2PL_dich.cpp:389 | the group mean `sum_theta[g]/gn[g]`, which times the group size gives back the sum |
| MStep2PL.FitItems | src/est_2PL_dich.cpp:199-217 | each item is refitted by `dfpmin` from its own start on its own columns, and `a`/`b` are overwritten with the fits; the maxima are the largest changes; the first error aborts with that error |
| MStep2PL.WritePars | src/est_2PL_dich.cpp:210-214 | item `i`'s fit extends the running maxima and is written into `a[i]`, `b[i]` |
| MStep2PL.FitStep | src/est_2PL_dich.cpp:210-211 | one more item extends both running maxima by that item's change |
| MStep2PL.FitsFail | src/est_2PL_dich.cpp:199-217 | a failing item makes the whole item loop fail with that item's error |
| MStep2PL.UpdateGroups | src/est_2PL_dich.cpp:380-392 | `ok` exactly when `GroupUpdate` is defined; then `mu`/`sigma` hold it: the reference group 0 and 1, every other group `sum/gn` and `sqrt(sumsig2/gn - mu^2)` |
| MStep2PL.MaxDifBounds | src/est_2PL_dich.cpp:373-374 | `maxdif` is non-negative, bounds every item's change, and is 0 or one of them |
| MStep2PL.ItemFitsPointwise | src/est_2PL_dich.cpp:361-378 | the item loop succeeds exactly when every item's fit does, and item `i`'s result is its own fit from `(a[i], b[i])` on columns `i` |
| MStep2PL.RefGroupPinned | src/est_2PL_dich.cpp:382-386 | the reference group gets mean exactly 0 and sd exactly 1 |
| MStep2PL.GroupMeans | src/est_2PL_dich.cpp:380-392 | the update is defined exactly when no non-reference group is empty; then each such group's mean times its size is its sum |
| MStep2PL.GroupMeanAt | src/est_2PL_dich.cpp:389 | a non-reference group is non-empty and its mean is `sum_theta[g] / gn[g]` |
| EM2PL.FromSeq | src/est_2PL_dich.cpp:177 | a fresh array holding a copy of the start values |
| EM2PL.Estimate2PLDich | src/est_2PL_dich.cpp:171-223 | the result is the 60-cycle run `FixedSpec` from the start values: each cycle is the single-group E-step, then one fit per item |
| EM2PL.SingleCycleStep | src/est_2PL_dich.cpp:193-217 | one cycle on the buffers gives exactly `SingleCycle` of the old parameters, or its error |
| EM2PL.FixedRunStep | src/est_2PL_dich.cpp:191-220 | a successful cycle hands its parameters, means and `sumsig2` on to the remaining cycles |
| EM2PL.FixedRunFails | src/est_2PL_dich.cpp:191-220 | a failing cycle ends the run with its error |
| EM2PL.FixedMeansWithinGrid | src/est_2PL_dich.cpp:191-221 | with an increasing grid and a monotone CDF, every `thetabar` the driver returns lies between the first and the last node |
| EM2PL.CycleMeansWithinGrid | src/est_2PL_dich.cpp:193-194 | the same bound for the means of one cycle |
| EM2PL.MultiCycleStep | src/est_2PL_dich.cpp:355-392 | one multigroup cycle on the buffers gives exactly `Cycle` of the old state, or its error |
| EM2PL.MultiMStep | src/est_2PL_dich.cpp:359-392 | the item fits, then the group update; their errors in that order; otherwise the new `a`, `b`, `mu`, `sigma` and both maxima |
| EM2PL.RunStep | src/est_2PL_dich.cpp:400-401 | a converged cycle (both maxima below 1e-4) ends the loop; any other goes on with one fewer cycle |
| EM2PL.MultiLoop | src/est_2PL_dich.cpp:348-403 | the buffers end in the state of `MultiRun` over at most 100 cycles, and `iter` is 100 minus the cycles left |
| EM2PL.StartBuffers | src/est_2PL_dich.cpp:336-346 | fresh, pairwise distinct buffers holding the start values and zeros |
| EM2PL.Estimate2PLMultigroup | src/est_2PL_dich.cpp:332-427 | the result is `MultigroupSpec`: the loop from the start values, then `obs` at the final parameters and counts |
| EM2PL.ObsOf | src/est_2PL_dich.cpp:405-418 | `obs` by rows is `ObsMatrix` of every item's Hessian at the final state |
| EM2PL.ObsLayout | src/est_2PL_dich.cpp:405-418 | item `i`'s Hessian sits at `(i,i)`, `(nit+i,nit+i)`, `(i,nit+i)` and `(nit+i,i)`; every other cell is 0 |
| EM2PL.ObsItem | src/est_2PL_dich.cpp:409-417 | one pass of the `obs` loop places item `i` and keeps the earlier items |
| EM2PL.PlaceItem | src/est_2PL_dich.cpp:414-417 | exactly the four cells of item `i` change |
| EM2PL.ObsEntryStep | src/est_2PL_dich.cpp:414-417 | placing item `i` changes exactly its four cells of the layout |
| EM2PL.ObsSymmetric | src/est_2PL_dich.cpp:416-417 | `obs` is symmetric |
| EM2PL.CycleGroups | src/est_2PL_dich.cpp:380-392 | every non-reference group's new mean is its persons' summed posterior means over `gn[g]`; the reference group is at 0 and 1 |
| EM2PL.CycleChanges | src/est_2PL_dich.cpp:373-374 | the reported `maxdif_a`/`maxdif_b` bound every item's change in the cycle |
| EM2PL.RunBounds | src/est_2PL_dich.cpp:353-403 | the loop uses at most its allowance and stops with cycles left only on convergence |
| EM2PL.MultigroupResult | src/est_2PL_dich.cpp:332-427 | `0 <= niter <= 100`, `obs` is `2 nit` square and symmetric, the reference group is 0/1, every other group's mean is its persons' summed `thetabar` over `gn[g]` |
| Oakes.PerturbedFlat | src/est_2PL_dich.cpp:461-477 | exactly parameter `j` of `a ++ b ++ mu ++ sigma` moves, by `dv`; every other equals the fixed input |
| Oakes.OakesColumnsPointwise | src/est_2PL_dich.cpp:505-515 | the Jacobian is complete exactly when both cycles of every column succeed; entry `(k, j)` is `(M(+delta)[k] - M(-delta)[k]) / (2 delta)` |
| Oakes.ColumnsFailOn | src/est_2PL_dich.cpp:461-516 | once a column fails, the whole computation fails with that error |
| Oakes.InsensitiveColumn | src/est_2PL_dich.cpp:505-515 | a cycle unaffected by parameter `j` gives a zero column |
| Oakes.SideGroupsUnpinned | src/est_2PL_dich.cpp:499-503 | each side re-estimates every group's mean, the reference group's included |
| Oakes.CopyInto | src/est_2PL_dich.cpp:463-466 | the working copy is reset to the fixed values |
| Oakes.OakesSideStep | src/est_2PL_dich.cpp:463-503 | one side is the cycle from the fresh fixed values with parameter `j` moved, flattened, or its error |
| Oakes.OakesColumnStep | src/est_2PL_dich.cpp:468-515 | column `j` is the central difference of its two sides, or the first side's error |
| Oakes.OakesLoop | src/est_2PL_dich.cpp:461-516 | `jacob` holds `OakesSpec`'s columns, or the first error |
| Oakes.WriteColumn | src/est_2PL_dich.cpp:505-515 | column `j` of `jacob` is written and every other column is unchanged |
| Oakes.ComputeOakes | src/est_2PL_dich.cpp:430-519 | `jacob` is `npar x npar` with `npar = 2(nit + ng)` and its columns are `OakesSpec`, or the first error |
| NRM.MaxScoreIsMax | src/nrm_est.cpp:42 | `a.max()` is an entry of `a` and no entry exceeds it |
| NRM.MaxEntry | src/nrm_est.cpp:42 | the loop computes `a.max()` |
| NRM.ExpTable | src/nrm_est.cpp:47-50 | `exp_at` is `(max_a+1) x nt`, row 0 is all ones and entry `(k,t)` is `exp(k theta[t])` for `k >= 1` |
| NRM.ExpAtPowers | src/nrm_est.cpp:47-50 | with an additive `exp`, row `k` of the table holds `exp(theta[t])^k` |
| NRM.RBuffers | src/nrm_est.cpp:56-58 | one `r(i)` per item, `nt` rows by `ncat[i]` columns |
| NRM.TracesOf | src/nrm_est.cpp:73-74 | `itrace(i)` is `nrm_trace` of item `i`'s columns of `a` and `b` |
| NRM.WriteFree | src/nrm_est.cpp:100-104 | rows `1 .. ncat-1` of column `i` become `pars`, everything else is unchanged, and the running maximum of the changes is extended |
| NRM.FitItemsNrm | src/nrm_est.cpp:84-105 | `b`, the summed errors and `maxdif_b` are exactly those of the item loop `ItemsPass` |
| NRM.ItemNrm | src/nrm_est.cpp:86-105 | one item is skipped when fixed, and otherwise refitted, written and counted |
| NRM.PassStep | src/nrm_est.cpp:86-105 | a fixed item leaves its column, the error count and the maximum alone; any other replaces its free rows, adds its error and extends the maximum |
| NRM.ItemsPassPointwise | src/nrm_est.cpp:86-105 | row 0 and the rows from `ncat[i]` on are kept; a fixed column is unchanged; the free rows are `D1min`'s result for two categories and `nlm`'s otherwise |
| NRM.DifFromBounds | src/nrm_est.cpp:100-102 | the running maximum is at least its start, bounds every change, and is its start or one of them |
| NRM.ItemsPassDif | src/nrm_est.cpp:84-105 | `maxdif_b` is non-negative, bounds the change of every free row of every item, and is 0 or one of those changes |
| NRM.NrmUpdateGroups | src/nrm_est.cpp:111-123 | `ok` exactly when `NrmGroupUpdate` is defined; then `mu`/`sigma` hold it |
| NRM.NrmGroups | src/nrm_est.cpp:111-123 | defined exactly when no group is empty; the reference group gets mean 0 and sd `sqrt(sumsig2/gn)`; others `sum/gn` and `sqrt(sumsig2/gn - mu^2)` |
| NRM.NrmIteration | src/nrm_est.cpp:73-130 | one pass on the buffers gives exactly `NrmStep`'s verdict and new state |
| NRM.NrmStepFacts | src/nrm_est.cpp:71-131 | a likelihood drop breaks with 2 before `b`, `mu` and `sigma` change; a minimizer error breaks with 1 before the group update; only a pass that goes on sets `old_ll`; fixed columns and non-free rows are kept |
| NRM.RunEnds | src/nrm_est.cpp:71-132 | a generic loop ends after at most `max_iter` passes, before that only on a `break` |
| NRM.NrmLoop | src/nrm_est.cpp:71-132 | the buffers end in `NrmRun`'s final state, with its `iter` and `break` code, or its error |
| NRM.LoopPass | src/nrm_est.cpp:71-132 | a failure or `break` ends the run there; otherwise the run goes on from the new state |
| NRM.NrmRunEnds | src/nrm_est.cpp:71-132 | an early end has code 0 with `maxdif_b < 1e-4`, or code 1 or 2; running out gives code 0; every column is kept from the start |
| NRM.StopCode | src/nrm_est.cpp:133-134 | `stop` is in {0,1,2,4,5,6}, has 4 exactly when `iter >= max_iter - 1`, and a code without 1 or 2 before `max_iter` means convergence |
| NRM.NrmResult | src/nrm_est.cpp:71-141 | `err` is in {0,1,2,4,5,6}; 4 is set exactly when `niter >= max_iter - 1`; `niter <= max_iter`; an end before `max_iter` without 1 or 2 has `maxdif_b < 1e-4`; every column keeps row 0 and the rows from `ncat[i]` on, and fixed columns equal `b_start`'s |
| NRM.CopyMatrix | src/nrm_est.cpp:54 | `b = b_start` is a fresh copy with the same columns |
| NRM.LoglikelihoodNRM | src/nrm_est.cpp:13-30 | the table from `a.max()`, every item's trace, then `loglikelihood` of those traces |
| NRM.NrmBuffers | src/nrm_est.cpp:41-64 | the table from the largest score and fresh copies of `b`, `mu` and `sigma` holding the start state |
| NRM.EstimateNRM | src/nrm_est.cpp:35-142 | the result is `NrmSpec`: the loop, 4 added when `iter >= max_iter - 1`, then the likelihood at the final parameters |

## Left out

- `exp`, `log`, `sqrt`, `pnorm`, `isinf` and `is_finite` are uninterpreted. Floating-point rounding, overflow and `long double` accumulation are not modelled. `std::isinf` and `is_finite` stay separate tests.
- NaN results:
  - A zero `accu(out)` in `gaussian_pts` or a zero `sp` in the E-step produces NaN in the source and the run carries on. The model reports these as `None`, or as the error `Degenerate` in the drivers.
  - Division by a zero group size in any of the three group updates is reported as the error `EmptyGroup`. In the 2PL drivers this covers non-reference groups; in `estimate_nrm` it covers every group.
- EStep2PL.LL2PLDich: a zero `sp` is passed to the uninterpreted `log` as it is; no error is modelled there, matching the source.
- A negative argument to `sqrt` in the group updates is not flagged, because the source does not check it.
- `Rcpp::stop` in the item objective (`inf ll`, `inf gradient`) becomes a `Failure` result, and the oracle minimizer `dfpmin` passes it on. The minimizers `dfpmin`, `D1min` and `nlm` (`minimize.h`) are not part of this model. They are oracles: `dfpmin` returns the new pair or an error; `D1min` and `nlm` return the overwritten parameters and an error count. Their iteration counts and returned objective values are not modelled.
- `nrm_trace`, `estep`, `loglikelihood` and `ll_nrm` (`nrm_item.h`, `posterior.h`) are not part of this model. They are oracle parameters. The model assumes only two things about them: the minimizers keep the length of `pars`, and `estep` keeps the shape of the `r` buffers and of the group sums.
- `pni` is used only for its length `np`. The E-step reads the person ranges from `pcni`.
- OpenMP `parallel`, `reduction` and `declare reduction`: every loop is modelled sequentially. The reductions are plain sums and maxima.
- `printf`, `fflush`, `progress_est` and the deviance `-2 sum log(sp * .6)` of the single-group E-step are reporting only and are left out. So are the per-iteration log-likelihood and `nn` of `estimate_2pl_dich`.
- `Rcpp::List` marshalling: the drivers return datatypes with the same fields. `estimate_nrm` does not return `a`, because it never changes it.
- In `estimate_nrm`:
  - The uninitialised `ll` is modelled as 0.
  - The initial `old_ll = -max` is modelled as "no previous likelihood", so the first comparison never fails.
  - `maxdif_b` is `None` until the first item loop sets it.
  - The `r(i)` buffers are modelled as zero-filled, where Armadillo leaves them uninitialised. `estep` overwrites them before any use.
- The quadrature, E-step and driver members require at least two nodes (`|theta| >= 2`): `gaussian_pts` reads `theta[1]` unconditionally (src/est_2PL_dich.cpp:24), so a shorter grid is an out-of-bounds read in the source.
- `estimate_nrm` and `loglikelihood_nrm` require `a.max() >= 0`, so that `exp_at` has at least one row.
- Armadillo views (`.col(i)`, `colptr`, `memptr` with `copy_aux_mem = false`) are modelled as copies of the viewed values. The objects that hold them are only read while they live.
- The inline `ll_2pl_dich` in est_2PL_dich.cpp:93-165 is the header's objective whose `hess` always uses the negated sign. The model uses `Item2PL.Item` with `negative = false` for `obs`. The item minimizer works on the objective only through the oracle.
- Item2PL.Item.Hessian: the Hessian formulas are modelled as written. No lemma states that they are the derivatives of the objective.
- EStep2PL.Traces: `itrace` is computed once per E-step as a function of `a`, `b` and `theta`, not filled column by column in an array.
