// The decisions of the maximum_color build driver
// (src/nanoemoji/maximum_color.py): which vector colour table a font
// carries, where each picosvg goes, and the checks before a build. The
// ninja file it writes is not part of this model.
module MaximumColor {
  import opened Wrappers
  import opened Text
  import Config

  // _vector_color_table

  /** _vector_color_table: a font with both an "SVG " and a "COLR" table, or
      with neither, is a ValueError; otherwise the tag of the one it has. */
  function VectorColorTable(tables: set<string>): (r: Result<string>)
    ensures r.Err? <==> ("SVG " in tables <==> "COLR" in tables)
    ensures r.Err? ==> r.error == ValueError
    ensures r.Ok? && "SVG " in tables ==> r.value == "SVG "
    ensures r.Ok? && "COLR" in tables ==> r.value == "COLR"
  {
    var hasSvg := "SVG " in tables;
    var hasColr := "COLR" in tables;
    if hasSvg == hasColr then Err(ValueError)
    else if hasSvg then Ok("SVG ")
    // the source's final AssertionError cannot be reached
    else Ok("COLR")
  }

  /** The table found is one the font has, and the other kind is absent. */
  lemma VectorColorTableFound(tables: set<string>)
    requires VectorColorTable(tables).Ok?
    ensures var tag := VectorColorTable(tables).value;
            tag in tables && (tag == "SVG " || tag == "COLR") && (if tag == "SVG " then "COLR" else "SVG ") !in tables
  {
  }

  // picosvg_dest

  /** Path(dir) / name for a name without '/': an empty name leaves the
      directory as it is. */
  function PathJoin(dir: string, name: string): (r: string)
  {
    if name == "" then dir
    else if dir == "" || dir[|dir| - 1] == '/' then dir + name
    else dir + "/" + name
  }

  /** build_dir() / "picosvg" */
  function PicosvgDir(buildDir: string): string
  {
    PathJoin(buildDir, "picosvg")
  }

  /** picosvg_dest: the input's file name under the picosvg directory. */
  function PicosvgDest(buildDir: string, inputSvg: string): string
  {
    PathJoin(PicosvgDir(buildDir), Config.PathName(inputSvg))
  }

  /** The destination keeps the input's file name and lies directly in the
      picosvg directory; inputs with the same file name share it. */
  lemma PicosvgDestKeepsName(buildDir: string, inputSvg: string, other: string)
    requires Config.PathName(inputSvg) != ""
    ensures var dest := PicosvgDest(buildDir, inputSvg);
            && Config.PathName(dest) == Config.PathName(inputSvg)
            && dest == PicosvgDir(buildDir) + "/" + Config.PathName(inputSvg)
    ensures Config.PathName(other) == Config.PathName(inputSvg) ==> PicosvgDest(buildDir, other) == PicosvgDest(buildDir, inputSvg)
  {
    var name := Config.PathName(inputSvg);
    var dir := PicosvgDir(buildDir);
    assert dir[|dir| - 1] == 'g';
    BasenameAfterSlash(dir, name);
  }

  /** The base name of "<dir>/<name>" is the name. */
  lemma {:induction false} BasenameAfterSlash(dir: string, name: string)
    requires '/' !in name && name != ""
    ensures Config.PathName(dir + "/" + name) == name
  {
    var path := dir + "/" + name;
    assert path[|path| - 1] == name[|name| - 1];
    BasenameSuffix(dir + "/", name);
  }

  lemma {:induction false} BasenameSuffix(front: string, name: string)
    requires '/' !in name && |front| > 0 && front[|front| - 1] == '/'
    ensures Basename(front + name) == name
    decreases |name|
  {
    if |name| == 0 {
      assert front + name == front;
    } else {
      var n := |name| - 1;
      assert (front + name)[..|front + name| - 1] == front + name[..n];
      BasenameSuffix(front, name[..n]);
      assert name[..n] + [name[n]] == name;
    }
  }

  // _run

  /** The checks _run makes before writing a build: exactly one argument
      after the program name (ValueError), the destroy_non_color_glyphs
      flag (NotImplementedError without it), an existing input file
      (AssertionError), then _vector_color_table. The result is the input
      font and its colour table. */
  function RunChecks(argv: seq<string>, destroyNonColorGlyphs: bool, isFile: string -> bool, tables: set<string>)
    : (r: Result<(string, string)>)
    ensures r.Ok? <==> |argv| == 2 && destroyNonColorGlyphs && isFile(argv[1]) && VectorColorTable(tables).Ok?
    ensures |argv| != 2 ==> r == Err(ValueError)
    ensures |argv| == 2 && !destroyNonColorGlyphs ==> r == Err(NotImplementedError)
    ensures |argv| == 2 && destroyNonColorGlyphs && !isFile(argv[1]) ==> r == Err(AssertionError)
    ensures r.Ok? ==> r.value == (argv[1], VectorColorTable(tables).value)
  {
    if |argv| != 2 then Err(ValueError)
    else if !destroyNonColorGlyphs then Err(NotImplementedError)
    else if !isFile(argv[1]) then Err(AssertionError)
    else
      var colorTable :- VectorColorTable(tables);
      Ok((argv[1], colorTable))
  }
}
