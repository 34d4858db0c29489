/** The state of PowderDiffractionViewer (main.py) without its widgets: the
    loaded file list, one spectrum per path, and the instrument settings,
    with the operations that change them. */
module DiffractionViewer {
  import opened PeakShape
  import opened PatternSynthesis
  import opened Positions

  datatype Option<T> = None | Some(value: T)

  /** The structure-factor calculation (calculate_peaks): the reflections of
      a structure file at a wavelength, or None when reading or calculating
      raises. */
  type Source = (string, real) -> Option<seq<Reflection>>

  /** The data of one `spectra` entry: the plotted curve, the checkbox value,
      whether the plotted line is visible, and the palette index (tab10). */
  datatype Spectrum = Spectrum(curve: Curve, checked: bool, visible: bool, color: nat)

  /** Why a range edit is refused. */
  datatype RangeError = BadStart | BadEnd | BadStep | StartNotBelowEnd | StepNotPositive

  /** The checks of update_theta_range in order: each entry must parse as a
      float (None: float() raised), then start < end, then step > 0. */
  function CheckRange(start: Option<real>, end: Option<real>, step: Option<real>): (e: Option<RangeError>)
    ensures e.None? <==> start.Some? && end.Some? && step.Some? && start.value < end.value && step.value > 0.0
    ensures e == Some(StartNotBelowEnd) <==> start.Some? && end.Some? && step.Some? && start.value >= end.value
    ensures e == Some(StepNotPositive)
        <==> start.Some? && end.Some? && step.Some? && start.value < end.value && step.value <= 0.0
  {
    if start.None? then Some(BadStart)
    else if end.None? then Some(BadEnd)
    else if step.None? then Some(BadStep)
    else if start.value >= end.value then Some(StartNotBelowEnd)
    else if step.value <= 0.0 then Some(StepNotPositive)
    else None
  }

  /** A path whose reflections are found and whose grid is nonempty, so that
      process_files gives it a spectrum. */
  predicate Loads(path: string, s: Settings, wavelength: real, exp: real -> real, source: Source)
    requires ValidSettings(s) && ExpLaws(exp)
  {
    source(path, wavelength).Some? && Synthesize(source(path, wavelength).value, s, exp).Synthesized?
  }

  /** The spectra map after process_files(paths): each path that loads gets a
      fresh, checked and visible entry coloured by the map's size before the
      insertion; a path that fails is skipped. */
  function Processed(spectra: map<string, Spectrum>, paths: seq<string>, s: Settings, wavelength: real,
                     exp: real -> real, source: Source): (r: map<string, Spectrum>)
    requires ValidSettings(s) && ExpLaws(exp)
    ensures spectra.Keys <= r.Keys
    decreases |paths|
  {
    if paths == [] then spectra
    else
      var m := Processed(spectra, paths[..|paths| - 1], s, wavelength, exp, source);
      AfterPath(m, paths[|paths| - 1], s, wavelength, exp, source)
  }

  /** One iteration of process_files: the spectra map after the path is
      processed, or unchanged when its calculation or synthesis raises. */
  function AfterPath(m: map<string, Spectrum>, path: string, s: Settings, wavelength: real,
                     exp: real -> real, source: Source): (r: map<string, Spectrum>)
    requires ValidSettings(s) && ExpLaws(exp)
    ensures r.Keys == if Loads(path, s, wavelength, exp, source) then m.Keys + {path} else m.Keys
  {
    match source(path, wavelength)
    case None => m
    case Some(rs) =>
      match Synthesize(rs, s, exp)
      case EmptyGrid => m
      case Synthesized(curve) => m[path := Spectrum(curve, true, true, |m| % 10)]
  }

  /** Processing gives spectra to exactly the paths that load, and keeps the
      entries it had. */
  lemma {:induction false} ProcessedKeys(spectra: map<string, Spectrum>, paths: seq<string>, s: Settings,
                                         wavelength: real, exp: real -> real, source: Source, p: string)
    requires ValidSettings(s) && ExpLaws(exp)
    ensures p in Processed(spectra, paths, s, wavelength, exp, source)
        <==> p in spectra || (p in paths && Loads(p, s, wavelength, exp, source))
    decreases |paths|
  {
    if paths != [] {
      var init := paths[..|paths| - 1];
      ProcessedKeys(spectra, init, s, wavelength, exp, source, p);
      assert paths == init + [paths[|paths| - 1]];
    }
  }

  /** A path that loads ends up with the curve synthesised from its own
      reflections, checked and visible, with a palette index below 10. */
  lemma {:induction false} ProcessedEntry(spectra: map<string, Spectrum>, paths: seq<string>, s: Settings,
                                          wavelength: real, exp: real -> real, source: Source, p: string)
    requires ValidSettings(s) && ExpLaws(exp)
    requires p in paths && Loads(p, s, wavelength, exp, source)
    ensures p in Processed(spectra, paths, s, wavelength, exp, source)
    ensures var e := Processed(spectra, paths, s, wavelength, exp, source)[p];
            && e.curve == Synthesize(source(p, wavelength).value, s, exp).curve
            && e.checked && e.visible && e.color < 10
    decreases |paths|
  {
    var init, last := paths[..|paths| - 1], paths[|paths| - 1];
    assert paths == init + [last];
    var m := Processed(spectra, init, s, wavelength, exp, source);
    assert Processed(spectra, paths, s, wavelength, exp, source) == AfterPath(m, last, s, wavelength, exp, source);
    if last == p {
      var curve := Synthesize(source(p, wavelength).value, s, exp).curve;
      assert AfterPath(m, p, s, wavelength, exp, source) == m[p := Spectrum(curve, true, true, |m| % 10)];
    } else {
      ProcessedEntry(spectra, init, s, wavelength, exp, source, p);
    }
  }

  /** The positions listed in selected[from..]. */
  function SelectedPositions(selected: seq<int>, from: nat): set<int>
  {
    set k | from <= k < |selected| :: selected[k]
  }

  /** The paths at the positions listed in selected[from..]. */
  function SelectedPaths(files: seq<string>, selected: seq<int>, from: nat): set<string>
    requires forall k :: 0 <= k < |selected| ==> 0 <= selected[k] < |files|
  {
    set k | from <= k < |selected| :: files[selected[k]]
  }

  /** Taking one more selected position (from the top down) adds that
      position, which lies below all those taken so far, and its path. */
  lemma SelectedStep(files: seq<string>, selected: seq<int>, j: nat, next: nat)
    requires forall i, k :: 0 <= i < k < |selected| ==> selected[i] < selected[k]
    requires forall k :: 0 <= k < |selected| ==> 0 <= selected[k] < |files|
    requires j < |selected| && next == j + 1
    ensures SelectedPositions(selected, j) == SelectedPositions(selected, next) + {selected[j]}
    ensures forall d :: d in SelectedPositions(selected, next) ==> d > selected[j]
    ensures SelectedPaths(files, selected, j) == SelectedPaths(files, selected, next) + {files[selected[j]]}
  {
  }

  /** One iteration of the deletion loop: with the positions above
      selected[j] already gone, position selected[j] still holds its original
      path, and deleting it leaves the list without selected[j..]. */
  lemma DeleteStep(files0: seq<string>, selected: seq<int>, j: nat, files: seq<string>)
    requires forall i, k :: 0 <= i < k < |selected| ==> selected[i] < selected[k]
    requires forall k :: 0 <= k < |selected| ==> 0 <= selected[k] < |files0|
    requires j < |selected|
    requires files == RemovePositions(files0, SelectedPositions(selected, j + 1))
    ensures selected[j] < |files| && files[selected[j]] == files0[selected[j]]
    ensures files[..selected[j]] + files[selected[j] + 1..] == RemovePositions(files0, SelectedPositions(selected, j))
    ensures SelectedPaths(files0, selected, j) == SelectedPaths(files0, selected, j + 1) + {files0[selected[j]]}
  {
    SelectedStep(files0, selected, j, j + 1);
    RemoveBelow(files0, SelectedPositions(selected, j + 1), selected[j]);
  }

  /** A listed path that is not at any selected position is still listed
      after the selected positions are removed. */
  lemma SurvivorsListed(files: seq<string>, selected: seq<int>, keys: set<string>)
    requires forall k :: 0 <= k < |selected| ==> 0 <= selected[k] < |files|
    requires forall p :: p in keys ==> p in files
    ensures forall p :: p in keys - SelectedPaths(files, selected, 0) ==>
              p in RemovePositions(files, SelectedPositions(selected, 0))
  {
    forall p | p in keys - SelectedPaths(files, selected, 0)
      ensures p in RemovePositions(files, SelectedPositions(selected, 0))
    {
      var q :| 0 <= q < |files| && files[q] == p;
      RemoveKeeps(files, SelectedPositions(selected, 0), q);
    }
  }

  /** Removing keys one more at a time. */
  lemma RemoveKeys<K, V>(m: map<K, V>, gone: set<K>, k: K)
    ensures (m - gone) - {k} == m - (gone + {k})
  {
  }

  class PowderDiffractionViewer {
    /** The exponential used by the peak shape. */
    const exp: real -> real
    /** The structure-factor calculation. */
    const source: Source

    var files: seq<string>
    var spectra: map<string, Spectrum>
    var wavelength: real
    var sigma: real
    var thetaStart: real
    var thetaEnd: real
    var step: real

    /** The settings are valid and every spectrum belongs to a listed file. */
    ghost predicate Valid()
      reads this
    {
      && ExpLaws(exp)
      && ValidSettings(CurrentSettings())
      && forall p :: p in spectra ==> p in files
    }

    function CurrentSettings(): Settings
      reads this
    {
      Settings(thetaStart, thetaEnd, step, sigma)
    }

    /** __init__: no files, Cu K-alpha wavelength, broadening 0.04, range
        10..90 with step 0.02. */
    constructor (exp: real -> real, source: Source)
      requires ExpLaws(exp)
      ensures Valid()
      ensures this.exp == exp && this.source == source
      ensures files == [] && spectra == map[]
      ensures wavelength == 1.5406 && sigma == 0.04
      ensures thetaStart == 10.0 && thetaEnd == 90.0 && step == 0.02
    {
      this.exp := exp;
      this.source := source;
      files := [];
      spectra := map[];
      wavelength := 1.5406;
      sigma := 0.04;
      thetaStart, thetaEnd := 10.0, 90.0;
      step := 0.02;
    }

    /** add_spectrum: store the curve under its path, checked and visible,
        coloured by the number of entries before the insertion. */
    method AddSpectrum(path: string, curve: Curve)
      requires Valid() && path in files
      modifies this`spectra
      ensures Valid()
      ensures spectra == old(spectra)[path := Spectrum(curve, true, true, |old(spectra)| % 10)]
    {
      spectra := spectra[path := Spectrum(curve, true, true, |spectra| % 10)];
    }

    /** process_files: for each path, fetch its reflections, synthesise its
        pattern and add its spectrum; a path whose calculation raises or
        whose grid is empty is skipped. */
    method ProcessFiles(paths: seq<string>)
      requires Valid()
      requires forall p :: p in paths ==> p in files
      modifies this`spectra
      ensures Valid()
      ensures spectra == Processed(old(spectra), paths, CurrentSettings(), wavelength, exp, source)
    {
      var i := 0;
      while i < |paths|
        invariant 0 <= i <= |paths|
        invariant Valid()
        invariant spectra == Processed(old(spectra), paths[..i], CurrentSettings(), wavelength, exp, source)
      {
        assert paths[..i + 1][..i] == paths[..i];
        ProcessPath(paths[i]);
        i := i + 1;
      }
      assert paths[..i] == paths;
    }

    /** The body of process_files for one path: calculate its reflections,
        synthesise its pattern and add its spectrum; when either step raises
        the path is skipped. */
    method ProcessPath(path: string)
      requires Valid() && path in files
      modifies this`spectra
      ensures Valid()
      ensures spectra == AfterPath(old(spectra), path, CurrentSettings(), wavelength, exp, source)
    {
      var found := source(path, wavelength);
      if found.Some? {
        var outcome := GeneratePattern(found.value, CurrentSettings(), exp);
        if outcome.Synthesized? {
          AddSpectrum(path, outcome.curve);
        }
      }
    }

    /** add_files: append the chosen paths in selection order (duplicates
        included) and process them; an empty selection changes nothing. */
    method AddFiles(chosen: seq<string>)
      requires Valid()
      modifies this`files, this`spectra
      ensures Valid()
      ensures files == old(files) + chosen
      ensures spectra == Processed(old(spectra), chosen, CurrentSettings(), wavelength, exp, source)
    {
      if chosen != [] {
        files := files + chosen;
        ProcessFiles(chosen);
      }
    }

    /** clear_files: drop every spectrum, then empty the file list. */
    method ClearFiles()
      requires Valid()
      modifies this`files, this`spectra
      ensures Valid()
      ensures files == [] && spectra == map[]
    {
      var pending := spectra.Keys;
      while pending != {}
        invariant spectra.Keys == pending
        decreases pending
      {
        var path :| path in pending;
        spectra := spectra - {path};
        pending := pending - {path};
      }
      assert spectra == map[];
      files := [];
    }

    /** redraw_plot: every listed path that has a spectrum is plotted anew,
        and a freshly plotted line is visible whatever its checkbox says. */
    method RedrawPlot()
      requires Valid()
      modifies this`spectra
      ensures Valid()
      ensures spectra.Keys == old(spectra).Keys
      ensures forall p :: p in spectra ==> spectra[p] == old(spectra)[p].(visible := true)
    {
      var i := 0;
      while i < |files|
        invariant 0 <= i <= |files|
        invariant spectra.Keys == old(spectra).Keys
        invariant forall p :: p in spectra ==>
                    spectra[p] == if p in files[..i] then old(spectra)[p].(visible := true) else old(spectra)[p]
      {
        assert files[..i + 1] == files[..i] + [files[i]];
        var path := files[i];
        if path in spectra {
          spectra := spectra[path := spectra[path].(visible := true)];
        }
        i := i + 1;
      }
      assert files[..i] == files;
    }

    /** The deletion loop of remove_selected_files: delete the selected
        positions from the file list, highest first so that lower positions
        stay valid, together with the spectrum of each deleted path. */
    method DeleteSelected(selected: seq<int>)
      requires Valid()
      requires forall i, j :: 0 <= i < j < |selected| ==> selected[i] < selected[j]
      requires forall k :: 0 <= k < |selected| ==> 0 <= selected[k] < |files|
      modifies this`files, this`spectra
      ensures Valid()
      ensures files == RemovePositions(old(files), SelectedPositions(selected, 0))
      ensures |files| == |old(files)| - |selected|
      ensures spectra == old(spectra) - SelectedPaths(old(files), selected, 0)
    {
      ghost var files0, spectra0 := files, spectra;
      var j := |selected|;
      RemoveNone(files, SelectedPositions(selected, j));
      assert spectra == spectra0 - SelectedPaths(files0, selected, j);
      while j > 0
        invariant 0 <= j <= |selected|
        invariant files == RemovePositions(files0, SelectedPositions(selected, j))
        invariant |files| == |files0| - (|selected| - j)
        invariant spectra == spectra0 - SelectedPaths(files0, selected, j)
      {
        j := j - 1;
        DeleteStep(files0, selected, j, files);
        RemoveKeys(spectra0, SelectedPaths(files0, selected, j + 1), files[selected[j]]);
        DeleteAt(selected[j]);
      }
      SurvivorsListed(files0, selected, spectra0.Keys);
    }

    /** The body of the deletion loop: the path at idx leaves the list and,
        when it has one, its spectrum leaves the map. */
    method DeleteAt(idx: nat)
      requires idx < |files|
      modifies this`files, this`spectra
      ensures files == old(files[..idx] + files[idx + 1..])
      ensures spectra == old(spectra) - {old(files[idx])}
    {
      var path := files[idx];
      if path in spectra {
        spectra := spectra - {path};
      }
      files := files[..idx] + files[idx + 1..];
    }

    /** remove_selected_files: with a nonempty selection, delete the selected
        files and their spectra, then redraw, which makes every remaining
        line visible again. */
    method RemoveSelectedFiles(selected: seq<int>)
      requires Valid()
      requires forall i, j :: 0 <= i < j < |selected| ==> selected[i] < selected[j]
      requires forall k :: 0 <= k < |selected| ==> 0 <= selected[k] < |files|
      modifies this`files, this`spectra
      ensures Valid()
      ensures files == RemovePositions(old(files), SelectedPositions(selected, 0))
      ensures |files| == |old(files)| - |selected|
      ensures spectra.Keys == old(spectra).Keys - SelectedPaths(old(files), selected, 0)
      ensures forall p :: p in spectra ==>
                spectra[p] == old(spectra)[p].(visible := old(spectra)[p].visible || selected != [])
      ensures selected == [] ==> unchanged(this)
    {
      if selected != [] {
        DeleteSelected(selected);
        RedrawPlot();
      } else {
        RemoveNone(files, SelectedPositions(selected, 0));
      }
    }

    /** toggle_spectrum: each line's visibility becomes its checkbox value. */
    method ToggleSpectrum()
      requires Valid()
      modifies this`spectra
      ensures Valid()
      ensures spectra.Keys == old(spectra).Keys
      ensures forall p :: p in spectra ==> spectra[p] == old(spectra)[p].(visible := old(spectra)[p].checked)
    {
      var pending := spectra.Keys;
      while pending != {}
        invariant pending <= spectra.Keys == old(spectra).Keys
        invariant forall p :: p in spectra ==>
                    spectra[p] == if p in pending then old(spectra)[p] else old(spectra)[p].(visible := old(spectra)[p].checked)
        decreases pending
      {
        var path :| path in pending;
        spectra := spectra[path := spectra[path].(visible := spectra[path].checked)];
        pending := pending - {path};
      }
    }

    /** A click on a spectrum's checkbox flips its value and runs
        toggle_spectrum. */
    method ClickCheckbox(path: string)
      requires Valid() && path in spectra
      modifies this`spectra
      ensures Valid()
      ensures spectra.Keys == old(spectra).Keys
      ensures spectra[path] == old(spectra)[path].(checked := !old(spectra)[path].checked, visible := !old(spectra)[path].checked)
      ensures forall p :: p in spectra && p != path ==> spectra[p] == old(spectra)[p].(visible := old(spectra)[p].checked)
    {
      spectra := spectra[path := spectra[path].(checked := !spectra[path].checked)];
      ToggleSpectrum();
    }

    /** redraw_all_patterns: clear everything, restore the same file list and
        process it again under the current settings. */
    method RedrawAllPatterns()
      requires Valid()
      modifies this`files, this`spectra
      ensures Valid()
      ensures files == old(files)
      ensures spectra == Processed(map[], old(files), CurrentSettings(), wavelength, exp, source)
    {
      var current := files;
      ClearFiles();
      files := current;
      ProcessFiles(current);
    }

    /** update_theta_range: parse and check the three entries; only when all
        checks pass are the range and the step assigned, and then, if any
        file is loaded, every file is processed again. A refused edit changes
        nothing. */
    method UpdateThetaRange(newStart: Option<real>, newEnd: Option<real>, newStep: Option<real>)
      returns (err: Option<RangeError>)
      requires Valid()
      modifies this`thetaStart, this`thetaEnd, this`step, this`files, this`spectra
      ensures Valid()
      ensures err == CheckRange(newStart, newEnd, newStep)
      ensures err.Some? ==> unchanged(this)
      ensures err.None? ==> thetaStart == newStart.value && thetaEnd == newEnd.value && step == newStep.value
      ensures files == old(files)
      ensures err.None? && old(files) != [] ==>
                spectra == Processed(map[], old(files), CurrentSettings(), wavelength, exp, source)
      ensures err.None? && old(files) == [] ==> spectra == old(spectra)
    {
      err := CheckRange(newStart, newEnd, newStep);
      if err.Some? {
        return;
      }
      thetaStart, thetaEnd := newStart.value, newEnd.value;
      step := newStep.value;
      if files != [] {
        var current := files;
        ClearFiles();
        files := current;
        ProcessFiles(current);
      }
    }

    /** apply_settings: assign the wavelength, then the broadening, then
        reprocess the loaded files. A wavelength entry that does not parse
        aborts before anything changes; a broadening entry that does not parse
        aborts after the wavelength was already assigned. Neither value is
        checked: a zero broadening is accepted, and every curve computed
        under it is NaN throughout. */
    method ApplySettings(newWavelength: Option<real>, newSigma: Option<real>) returns (applied: bool)
      requires Valid()
      modifies this`wavelength, this`sigma, this`files, this`spectra
      ensures Valid()
      ensures applied <==> newWavelength.Some? && newSigma.Some?
      ensures wavelength == if newWavelength.Some? then newWavelength.value else old(wavelength)
      ensures sigma == if applied then newSigma.value else old(sigma)
      ensures files == old(files)
      ensures spectra == if applied && old(files) != [] then Processed(map[], old(files), CurrentSettings(), wavelength, exp, source)
                         else old(spectra)
    {
      applied := false;
      if newWavelength.None? {
        return;
      }
      wavelength := newWavelength.value;
      if newSigma.None? {
        return;
      }
      sigma := newSigma.value;
      if files != [] {
        RedrawAllPatterns();
      }
      applied := true;
    }
  }

  /** Clearing is idempotent: the state after a second clear_files equals
      the state after the first, and neither touches the settings. */
  method ClearFilesTwice(v: PowderDiffractionViewer)
      returns (onceFiles: seq<string>, onceSpectra: map<string, Spectrum>)
    requires v.Valid()
    modifies v`files, v`spectra
    ensures v.Valid()
    ensures v.files == onceFiles && v.spectra == onceSpectra
    ensures onceFiles == [] && onceSpectra == map[]
  {
    v.ClearFiles();
    onceFiles, onceSpectra := v.files, v.spectra;
    v.ClearFiles();
  }
}
