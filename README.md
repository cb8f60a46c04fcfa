# Ant Colony Optimization for an open tour over Algerian regions

This project is a Dafny model of the optimization engine of the Algerian TSP
application. It also models the helper that builds the distance matrix the
engine uses.

The engine (`Aco.AntColonyOptimization`) keeps three things:

- an n×n pheromone matrix, updated in place;
- the best tour and best distance found so far;
- a history with one best distance per generation.

In each generation, every ant builds an open tour. The tour starts at a
chosen city, visits every other city once, and ends at a chosen end city.
Each tour is measured. A tour strictly shorter than the best so far replaces
it. Then the pheromones are evaporated and reinforced symmetrically along
every tour, and the best distance is appended to the history.

Modules:

- `Matrix` (`matrix.dfy`): predicates on `array2<real>` matrices: square, symmetric,
  non-negative, zero diagonal, positive off the diagonal.
- `Distance` (`distance.dfy`): the point-to-point distance, and
  `BuildDistanceMatrix`. This method fills a zero matrix in place with a nested
  loop, as `utils/distance.py` does. The square root is a function parameter.
  The model assumes only `IsSqrt` of it: `sqrt(0) == 0`, and it is strictly
  increasing on the non-negative reals.
- `Aco` (`aco.dfy`): the engine class and the specification functions its
  methods are proved against:
  - `PathLength`: tour length;
  - `Deposit`: what the tours add to each pheromone entry;
  - `BestAfter`: the best-so-far fold;
  - `Mean`: the generation's average.

  The lemmas about these functions carry the properties.

Numbers are unbounded `real`s. The source's `float('inf')` initial best
distance is `None` in an `Option<real>`. So is the NaN that NumPy's mean
returns for a generation with no ants. The history is therefore a
`seq<Option<real>>`.

The code checks none of its inputs before using them. When `num_ants > 0`, an
out-of-range start or end city surfaces as NumPy's `IndexError` at the first
access (algorithms/aco.py:64 or 109), before any state changes. With no ants,
those lines are never reached and the generation completes. Fewer than three
cities, a start city equal to the end city, or an evaporation rate outside
(0, 1) raise nothing when they are given. The model states the conditions its
properties need as preconditions. "## Left out" says what the source does
outside them.

## Model

| member | source | states |
|---|---|---|
| `Distance.EuclideanDistance` | utils/distance.py:7-20 | The square root of the sum of the squared latitude and longitude differences. `EuclideanSymmetric` and `EuclideanSign` state its properties. |
| `Distance.EuclideanSymmetric` | utils/distance.py:18-20 | The distance between two cities does not depend on their order. |
| `Distance.EuclideanSign` | utils/distance.py:18-20 | The distance is non-negative. It is zero for two cities with the same coordinates and positive otherwise. |
| `Distance.BuildDistanceMatrix` | utils/distance.py:34-42 | The result is a freshly allocated `len(cities)` × `len(cities)`. Entry `[i, j]` is the distance of cities i and j when `i != j`, and 0 on the diagonal. The matrix is symmetric. It is non-negative, and positive off the diagonal when no two cities coincide. |
| `Aco.AntColonyOptimization.constructor` | algorithms/aco.py:37-50 | Stores the parameters. The pheromone matrix is a fresh n×n array of 1.0, so it is symmetric and non-negative. There is no best tour, the best distance is +infinity, and the history is empty. |
| `Aco.AntColonyOptimization.CalculateDistance` | algorithms/aco.py:62-65 | The accumulator loop returns `PathLength`, the sum of the distances between consecutive cities. It is 0 for tours of length 0 or 1. |
| `Aco.PathLengthNonNegative` | algorithms/aco.py:62-65 | Over a non-negative matrix, every tour length is non-negative. |
| `Aco.PathLengthPositive` | algorithms/aco.py:62-65 | A tour of two or more cities that never repeats a city at consecutive positions has positive length when off-diagonal distances are positive, so `Q / distance` is defined. |
| `Aco.TourLengthPositive` | algorithms/aco.py:135 | Over positive off-diagonal distances, every open tour between two distinct endpoints has positive length, so `Q / distance` is defined. |
| `Aco.AntColonyOptimization.SelectNextCity` | algorithms/aco.py:105-121 | If some city is unvisited and is not the end city, the result is such a city. Otherwise the result is the end city. |
| `Aco.UnvisitedCityExists` | algorithms/aco.py:83-84 | While fewer than n − 1 cities are visited, an unvisited city other than the end city exists, so tour construction never takes the fallback. |
| `Aco.AntColonyOptimization.ConstructSolution` | algorithms/aco.py:78-91 | For distinct in-range start and end cities, the tour has length n. It starts at the start city and ends at the end city. Its cities are distinct and in range, and every city appears in it. |
| `Aco.PermutationCoversAll` | algorithms/aco.py:78-91 | n distinct cities below n include every city below n. |
| `Aco.AntColonyOptimization.Evaporate` | algorithms/aco.py:131 | Every entry is multiplied by `factor`. `UpdatePheromones` passes `1 - evaporation_rate`. |
| `Aco.AntColonyOptimization.Reinforce` | algorithms/aco.py:137-138 | The deposit is added to `[a, b]` and then to `[b, a]`. A step from a city to itself adds it twice. No other entry changes. |
| `Aco.AntColonyOptimization.DepositAlong` | algorithms/aco.py:136-138 | Every entry gains `TourDeposit`: the deposit once for each time one of the tour's steps reinforces it. |
| `Aco.AntColonyOptimization.UpdatePheromones` | algorithms/aco.py:131-138 | Each entry becomes `(1 - rho) * old + Deposit(all_tours, Q, i, j)`. Symmetry is kept. Non-negativity is kept when 0 ≤ rho ≤ 1 and Q ≥ 0. |
| `Aco.StepDepositCounts` | algorithms/aco.py:137-138 | One step adds the deposit to `[i, j]` once for each of its two writes that lands there. |
| `Aco.TourDepositZero` | algorithms/aco.py:136-138 | Steps that never write `[i, j]` add nothing to it. |
| `Aco.TourDepositSign` | algorithms/aco.py:135-138 | A non-negative deposit adds nothing negative. A positive deposit adds a positive amount to every entry the tour writes. |
| `Aco.DepositStep` | algorithms/aco.py:134-138 | Processing one more tour adds exactly that tour's deposit. |
| `Aco.TourDepositCounts` | algorithms/aco.py:135-138 | What a tour adds to `[i, j]` is `Q / distance` times the number of its steps between i and j, in either direction. |
| `Aco.EdgeHitsSymmetric` | algorithms/aco.py:137-138 | A tour reinforces `[i, j]` exactly as often as `[j, i]`. |
| `Aco.EdgeHitsPositive` | algorithms/aco.py:136-138 | The first k steps reinforce `[i, j]` if and only if one of them goes between i and j. |
| `Aco.EdgeCountPositive` | algorithms/aco.py:136-138 | A whole tour reinforces `[i, j]` if and only if it passes between i and j. |
| `Aco.DepositSymmetric` | algorithms/aco.py:137-138 | The total deposit on `[i, j]` equals that on `[j, i]`. |
| `Aco.DepositNonNegative` | algorithms/aco.py:134-135 | With Q ≥ 0 and positive tour distances, no deposit is negative. |
| `Aco.DepositOffTours` | algorithms/aco.py:134-138 | An entry that no tour passes over gets no deposit, so only evaporation changes it. |
| `Aco.DepositOnTours` | algorithms/aco.py:134-138 | With Q > 0, an entry that some tour passes over gets a positive deposit. |
| `Aco.BestAfterIsMinimum` | algorithms/aco.py:159-162 | The new best distance is the minimum of the old best and every distance of the generation. It is at most each of them and equal to one of them. |
| `Aco.BestAfterReplaces` | algorithms/aco.py:159-162 | If no tour is strictly shorter than the old best, the best tour and distance are unchanged. Otherwise they become a tour of the generation that improves on the old best and is strictly shorter than every earlier tour, with its distance. Together with `BestAfterIsMinimum`, this is the first tour of minimum length. |
| `Aco.MeanAtLeast` | algorithms/aco.py:169 | The mean is defined exactly when there are tours. It is at least any value that bounds every distance from below. |
| `Aco.GenerationKeepsIncumbent` | algorithms/aco.py:159-166 | After a generation, with its best distance appended to the history, the bookkeeping is still consistent. Best distance and best tour are set together. The best tour is a permutation. The history never increases and ends with the best distance. The best distance never grows and is at most the generation's mean. |
| `Aco.AntColonyOptimization.RunAnt` | algorithms/aco.py:155-156 | One ant's tour is an open tour over all the cities with the given endpoints. Its recorded distance is its `PathLength`, and that distance is positive. |
| `Aco.AntColonyOptimization.ConstructGeneration` | algorithms/aco.py:151-162 | It builds `num_ants` tours with fixed endpoints, each with its `PathLength`. The best-so-far is the `BestAfter` fold of them. The history is untouched. |
| `Aco.AntColonyOptimization.RunIteration` | algorithms/aco.py:151-171 | One generation. Its tours are permutations with fixed endpoints. The best-so-far is the `BestAfter` fold and never increases. The pheromones are updated as in `UpdatePheromones`. The history grows by exactly the new best distance. The returned average is the mean of this generation's distances and is at least the best distance. The engine invariant is kept. |

## Left out

- The weighted roulette wheel (algorithms/aco.py:109-121) is not modelled. This covers the powers `** alpha` and `** beta`, the normalisation, and `np.random.choice`. The next city is a nondeterministic choice among the candidates. `alpha` and `beta` are stored but unused, and `currentCity` only fed the weights.
- `Aco.AntColonyOptimization.SelectNextCity`: says nothing about the probability of each candidate, only that the choice is a candidate. This follows from leaving the weights out.
- The selection weights divide by `distance_matrix[current][city]`, and the deposit divides by the tour distance. With float64 arithmetic, a zero entry makes `1.0 / distance` infinite. For beta > 0 the normalised probabilities then contain NaN, and `np.random.choice` (algorithms/aco.py:121) raises `ValueError`. For beta == 0, which the dashboard's slider allows, `inf ** 0.0 == 1.0` and the draw goes ahead. A two-city tour between coincident cities makes no draw, and its length 0 makes `Q / distance` (algorithms/aco.py:135) an infinite deposit. `RunIteration` requires positive off-diagonal distances, and `UpdatePheromones` requires positive tour distances. `BuildDistanceMatrix` provides the first when no two cities coincide.
- The source validates nothing. `ConstructSolution`, `ConstructGeneration` and `RunIteration` require in-range, distinct start and end cities. When `num_ants > 0`, an out-of-range start or end city makes the source raise `IndexError` at algorithms/aco.py:109 or 64, before any state changes. The model has no such error path.
- `Aco.AntColonyOptimization.RunIteration`: it requires in-range, distinct start and end cities even when `num_ants == 0`. The source then never reaches the ant loop (algorithms/aco.py:154). It evaporates the whole matrix, appends the unchanged best distance to the history, returns a NaN mean and raises nothing, whatever the two cities are.
- A start city equal to the end city is not modelled. The source then builds a tour of length n that starts and ends at that city and omits one other city, and reports no error (algorithms/aco.py:78-91). The constructor requires a square matrix, since `len(distance_matrix)` is taken as the number of cities.
- `Aco.AntColonyOptimization.SelectNextCity`, `Aco.AntColonyOptimization.RunIteration`: neither captures the `ValueError` that `np.random.choice` (algorithms/aco.py:121) can raise after an evaporation rate ≥ 1. A rate above 1 drives untouched entries negative, so `** alpha` (line 109) gives negative or NaN weights. A rate of exactly 1 can leave every candidate's pheromone at 0, so the normalisation at line 119 is 0/0. The model's choice among candidates always succeeds, so it completes generations where the source can raise.
- Python's negative indices and a negative ant count are out of scope. Cities and the ant count are `nat`, so a negative `range` never arises.
- IEEE floating point, `np.sqrt`, overflow and NaN propagation are not modelled. Values are reals, and the square root is a parameter assumed only to satisfy `IsSqrt`.
- The distance matrix is an array the engine reads but does not own. Tour lengths are stated against its current contents.
- `run_iteration` copies each improving tour (line 162) but returns the stored `best_tour` list itself. The model works with sequence values, so aliasing of that list is not modelled.
- Convergence on a concrete instance and run-to-run determinism under a fixed seed are statements about the random draws, so they are not modelled.
- The Streamlit dashboard (`app.py`) and the plotting code (`utils/visualization.py`) are not part of this model. They are presentation around the engine.
- The data set of regions is not part of this model. The city list is an arbitrary sequence, and only each city's latitude and longitude are kept.
