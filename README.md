# XRD-Viewer powder-pattern core in Dafny

XRD-Viewer is a desktop viewer for simulated X-ray powder diffraction patterns. This project models its `PowderDiffractionViewer` class (`main.py`) without its widgets. The model covers three parts:

- **Pattern synthesis** (`generate_pattern`), in `synthesis.dfy` and `peak.dfy`.
  - An `np.linspace` grid of `int((end - start) / step)` samples covers the 2-theta window.
  - Every reflection whose angle lies in the closed window `[start, end]` adds a 50/50 pseudo-Voigt peak into an accumulator array, in place.
  - The accumulator is then divided by its maximum.
  - The method `GeneratePattern` keeps the in-place array loop. It is proved equal to the specification function `Synthesize`. The properties are proved as lemmas about `Synthesize`:
    - the grid size and its endpoints;
    - only reflections in the window contribute;
    - the result does not depend on reflection order;
    - the normalisation bounds.
- **Settings updates** (`update_theta_range`, `apply_settings`). The range update parses three entries and checks `start < end` and `step > 0`. It assigns all fields or none, then reprocesses the loaded files.
- **File and spectrum bookkeeping**, kept in sync by several methods:
  - the `files` list and the `spectra` map keyed by path;
  - `add_files`, `process_files`, `add_spectrum`, `remove_selected_files` (reverse-index deletion), `clear_files`, `toggle_spectrum`, `redraw_plot` and `redraw_all_patterns`.
  - These are methods of the class `DiffractionViewer.PowderDiffractionViewer`. Its fields are updated in place, under precise `modifies` frames. The invariant `Valid()` says that the settings are valid and that every spectrum belongs to a listed file.

Modules:

- `PeakShape` (`peak.dfy`): the peak formula.
- `PatternSynthesis` (`synthesis.dfy`): the grid, the accumulation and the normalisation.
- `Positions` (`positions.dfy`): deleting a set of list positions.
- `DiffractionViewer` (`viewer.dfy`): the viewer state.

Abstractions:

- Reals replace floats.
- The exponential is a parameter `exp`. Only the laws in `PeakShape.ExpLaws` are assumed: `exp(0) = 1`, positivity and monotonicity.
- The constant `2*sqrt(2*ln 2)` is the double `2.3548200450309493`.
- The structure-factor calculation (`calculate_peaks`, backed by a third-party library) is a function parameter `source` from path and wavelength to `Option<seq<Reflection>>`. `None` stands for an exception.
- An entry that fails `float()` parsing is a `None` argument.

Behaviour of the code that the model keeps:

- The grid is `np.linspace(start, end, n)`. It includes both endpoints, so its samples are `(end - start) / (n - 1)` apart.
- When the accumulator is zero everywhere, `pattern / np.max(pattern)` is 0/0 at every sample. The model marks such a curve `AllNaN`.
- With a zero broadening, every offset is divided by zero. Each sample is then 0 or NaN, and the returned curve is NaN throughout (`AllNaN`).
- When `step > end - start`, the sample count is 0 and `np.max` raises on the empty grid. `process_files` catches this per file, and the file gets no spectrum (`Outcome.EmptyGrid`).
- `add_files` appends duplicate paths as they are. A duplicate's spectrum overwrites the earlier entry under the same key.
- Every reprocessing (range update, settings update) clears the spectra and recomputes them from the structure files.

## Model

| member | source | states |
|---|---|---|
| PeakShape.SquaredOffset | main.py:245-247 | the squared normalised offset ((t - angle) / sigma)^2 is nonnegative and is zero exactly at the peak centre |
| PeakShape.PeakValue | main.py:245-248 | one peak's contribution equals the intensity at its own centre (0.5*I + 0.5*I); for I >= 0 it lies in [0, I], is positive when I > 0 and is zero when I = 0 |
| PeakShape.Lorentzian | main.py:246 | the unit Lorentzian 1/(1 + q) lies in (0, 1] and is 1 at zero offset |
| PeakShape.Gaussian | main.py:247 | the unit Gaussian exp(-q) lies in (0, 1] for q >= 0 and is 1 at zero offset |
| PeakShape.Profile | main.py:246-248 | the 50/50 mix of height I equals I at zero offset and vanishes for I = 0 |
| PeakShape.MixBounds | main.py:248 | the 50/50 mix of two weights in (0, 1] is between 0 and I for I >= 0, and positive for I > 0 |
| PeakShape.MixMonotone | main.py:248 | for I >= 0 the 50/50 mix does not decrease in either weight |
| PeakShape.ProfileBounds | main.py:246-248 | the 50/50 Lorentzian–Gaussian mix of height I is between 0 and I for I >= 0, positive for I > 0, and I at zero offset |
| PeakShape.PeakSymmetric | main.py:245-248 | the peak is symmetric about its centre: equal values at centre + d and centre - d |
| PeakShape.PeakDecays | main.py:245-248 | for I >= 0 the peak does not increase moving away from its centre on either side |
| PeakShape.ProfileAntitone | main.py:246-248 | the mixed profile does not increase with the squared offset, for I >= 0 |
| PatternSynthesis.Trunc | main.py:239 | Python int() on a float truncates toward zero: floor for nonnegative values, ceiling for negative ones |
| PatternSynthesis.SampleCount | main.py:238-239 | the sample count n = int((end - start) / step) is the number of whole steps that fit in the window: n*step <= end - start < (n + 1)*step |
| PatternSynthesis.Linspace | main.py:238-239 | np.linspace gives exactly n samples, the first equal to start, the last equal to end when n >= 2, evenly spaced by (end - start)/(n - 1) |
| PatternSynthesis.Grid | main.py:238-239 | the grid for the current settings has int((end - start)/step) samples, from start to end |
| PatternSynthesis.InWindow | main.py:244 | the window test is closed at both ends |
| PatternSynthesis.Contribution | main.py:243-248 | a reflection outside the window adds nothing; one inside adds a nonnegative amount for I >= 0, and exactly I at its own angle |
| PatternSynthesis.Accumulated | main.py:243-248 | the accumulator at any angle is nonnegative when every intensity is nonnegative |
| PatternSynthesis.AccumulatedStep | main.py:243-248 | one more iteration of the reflection loop adds exactly that reflection's contribution |
| PatternSynthesis.MaxOf | main.py:250 | np.max returns a value that bounds every element and is attained by one |
| PatternSynthesis.Normalize | main.py:250 | dividing by a nonzero maximum keeps the length, and multiplying back by the maximum restores every value |
| PatternSynthesis.Synthesize | main.py:236-250 | generate_pattern raises (empty grid) exactly when int((end - start)/step) = 0; otherwise x is the linspace grid, y has the same length as x, and a zero broadening gives NaN throughout |
| PatternSynthesis.GeneratePattern | main.py:236-250 | the in-place accumulation loop over the grid array followed by normalisation returns exactly the specified pattern |
| PatternSynthesis.Windowed | main.py:243-244 | the window filter keeps every reflection with start <= angle <= end, as often as it occurs in the input, and no other |
| PatternSynthesis.OnlyWindowContributes | main.py:243-244 | reflections outside [start, end] contribute nothing: the accumulator equals the one built from the in-window reflections alone |
| PatternSynthesis.AccumulatedAppend | main.py:243-248 | the accumulation is additive: the pattern of a concatenation is the sum of the two patterns |
| PatternSynthesis.AccumulatedPermutation | main.py:243-248 | the accumulated pattern is the same for every ordering of the reflections |
| PatternSynthesis.AccumulatedPositive | main.py:243-248 | with nonnegative intensities the accumulator is positive at an angle iff some in-window reflection has positive intensity |
| PatternSynthesis.NormalizeByMax | main.py:250 | dividing a nonnegative sequence by its positive maximum puts every value in [0, 1] and at least one at 1 |
| PatternSynthesis.SynthesizeNormalized | main.py:238-250 | on a nonempty grid with nonnegative intensities the curve is properly normalised (all y in [0, 1], one y = 1) iff the broadening is nonzero and some in-window reflection has positive intensity, and is NaN throughout otherwise |
| PatternSynthesis.SynthesizeOrderIndependent | main.py:243-250 | the returned curve does not depend on the order of the reflections |
| Positions.RemovePositions | main.py:189-195 | deleting positions never lengthens the list |
| Positions.RemovePositionsLength | main.py:189-195 | exactly one element goes per selected position inside the list |
| Positions.RemoveNone | main.py:187-197 | deleting no in-range position leaves the list unchanged |
| Positions.RemoveBelow | main.py:188-195 | when all positions deleted so far are above p, index p still addresses the original element, and deleting it removes exactly that element: why the source deletes in reverse order |
| Positions.RemoveKeeps | main.py:189-195 | an element at a position that is not selected survives the deletion |
| DiffractionViewer.CheckRange | main.py:146-157 | a range edit is accepted iff all three entries parse, start < end and step > 0; start >= end and step <= 0 are reported as such, in the source's order of checks |
| DiffractionViewer.AfterPath | main.py:216-221 | processing one path adds exactly that path's key when its calculation and synthesis succeed, and leaves the keys alone otherwise |
| DiffractionViewer.Processed | main.py:213-221 | processing a list of paths never loses an existing spectrum |
| DiffractionViewer.ProcessedKeys | main.py:213-221 | after process_files a path has a spectrum iff it had one before, or it was processed and its calculation and grid succeeded |
| DiffractionViewer.ProcessedEntry | main.py:213-221 | a processed path that loads holds the curve synthesised from its own reflections, checked and visible, with a tab10 palette index below 10 |
| DiffractionViewer.SelectedStep | main.py:189 | taking the selection from the top down adds, at each step, a position below all those already taken |
| DiffractionViewer.DeleteStep | main.py:189-195 | each iteration of the reverse deletion loop reads the path originally at idx and deletes exactly that position and its spectrum |
| DiffractionViewer.SurvivorsListed | main.py:189-197 | every spectrum path that was not selected is still in the file list after the deletion |
| DiffractionViewer.PowderDiffractionViewer.constructor | main.py:13-24 | a new viewer has no files and no spectra, wavelength 1.5406, broadening 0.04, range [10, 90] and step 0.02 |
| DiffractionViewer.PowderDiffractionViewer.AddSpectrum | main.py:252-269 | the spectrum is stored under its path, checked and visible, coloured by the map's size before insertion modulo 10; an existing entry for the path is overwritten |
| DiffractionViewer.PowderDiffractionViewer.ProcessPath | main.py:216-221 | one path's try block: calculate, synthesise and add its spectrum, or skip the path when a step raises |
| DiffractionViewer.PowderDiffractionViewer.ProcessFiles | main.py:213-221 | each path is handled in order; a path whose calculation raises or whose grid is empty is skipped and the rest still processed |
| DiffractionViewer.PowderDiffractionViewer.AddFiles | main.py:178-183 | the chosen paths are appended in selection order, duplicates included, and processed; an empty choice changes nothing |
| DiffractionViewer.PowderDiffractionViewer.ClearFiles | main.py:199-206 | clearing leaves no files and no spectra |
| DiffractionViewer.PowderDiffractionViewer.RedrawPlot | main.py:284-293 | redrawing keeps every spectrum and makes every plotted line visible again, whatever its checkbox says |
| DiffractionViewer.PowderDiffractionViewer.DeleteSelected | main.py:189-195 | the reverse deletion loop removes exactly the selected positions (others keep their relative order) and exactly the spectra of the removed paths |
| DiffractionViewer.PowderDiffractionViewer.DeleteAt | main.py:190-195 | one deletion removes the path at idx from the list and its spectrum, if any, from the map |
| DiffractionViewer.PowderDiffractionViewer.RemoveSelectedFiles | main.py:185-197 | with strictly increasing in-range indices, the list loses exactly those positions, each removed path loses its spectrum, other entries keep their data (made visible by the redraw); an empty selection changes nothing |
| DiffractionViewer.PowderDiffractionViewer.ToggleSpectrum | main.py:273-277 | every line's visibility becomes its checkbox value; nothing else changes |
| DiffractionViewer.PowderDiffractionViewer.ClickCheckbox | main.py:257-261 | a click flips one checkbox and resynchronises all visibilities, so that spectrum's line shows exactly when it is now checked |
| DiffractionViewer.PowderDiffractionViewer.RedrawAllPatterns | main.py:138-143 | the file list is restored in the same order and every spectrum is recomputed from scratch under the current settings |
| DiffractionViewer.PowderDiffractionViewer.UpdateThetaRange | main.py:145-168 | a refused edit leaves the whole state unchanged; an accepted one sets range and step to the parsed values, keeps the file list in order and, when files are loaded, recomputes all spectra |
| DiffractionViewer.PowderDiffractionViewer.ApplySettings | main.py:129-134 | the wavelength is assigned before the broadening is parsed, so a bad broadening entry leaves the new wavelength in place; neither value is checked, and with both applied all spectra are recomputed |
| DiffractionViewer.ClearFilesTwice | main.py:199-206 | the state after a second clear equals the state after the first (no files, no spectra), and the settings are untouched |

## Left out

- The Tk widgets, dialogs, message boxes and all matplotlib drawing: `create_widgets`, `setup_plot`, `show_advanced_settings`, `clear_plot`, `update_plot`, `update_file_list` and `reset_range_entries`. A spectrum keeps only its curve, checkbox value, visibility and palette index. The line, variable and checkbox handles are dropped.
- Checkbox widgets orphaned when a duplicate path overwrites its spectrum entry are not modelled, because they are widget state.
- `calculate_peaks` is the parameter `source`, because it wraps a third-party structure-factor library. Its error dialog is not modelled.
- Floating-point rounding of `exp`, `sqrt`, `log`, division and `np.linspace` is not modelled. Reals are used, and `exp` is a parameter with only the laws in `ExpLaws`. NaN or infinite entries (which `float()` accepts) are not modelled.
- `PatternSynthesis.Linspace`: the final sample is exactly `end`, as NumPy sets it. The interior samples are the exact reals `start + i*d`, not the rounded doubles.
- The values a zero broadening produces (0, infinity, NaN) are not computed one by one. The model gives the resulting curve directly as `AllNaN` over the grid.
- `DiffractionViewer.PowderDiffractionViewer.AddSpectrum` requires the path to be listed in `files`. Its only caller, `process_files`, is only ever given listed paths.
- `DiffractionViewer.PowderDiffractionViewer.RemoveSelectedFiles` takes the selection as strictly increasing, in-range indices. That is what a listbox's `curselection()` delivers.
- `view_3d_structure` is not modelled, because it launches a subprocess.
- `crystal_3d_viewer.py` is not part of this model: it is 3-D plotting around library neighbour searches.
- `RIETAN-FP.py` is not part of this model: it invokes an external executable.
