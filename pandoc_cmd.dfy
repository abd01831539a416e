/** `build_pandoc_cmd` and `build_docker_pandoc_cmd` of `pandoc_utils.py`:
    the argument lists for running pandoc on the host or in the `erda-pandoc`
    container. A missing list of filters or extra arguments (`None`) behaves
    like an empty one and is modelled as one. */
module PandocCmd {
  import opened Paths

  const InputFormat := "gfm+emoji+fenced_divs+raw_attribute"

  /** The container sees the output directory as `/data`, the temporary
      directory as `/temp`, the clone as `/gitbook_repo` and the filters'
      directories as `/filters`. */
  const DockerImage := "erda-pandoc"

  /** The arguments both commands give pandoc after its name: input, output,
      formats, engine, table of contents and paper size. */
  function PandocArgs(input: string, output: string): (r: seq<string>)
    ensures |r| == 11 && r[0] == input && r[2] == output
  {
    [input, "-o", output, "-f", InputFormat, "-t", "latex", "--pdf-engine=lualatex", "--toc", "-V", "geometry=a4paper"]
  }

  /** One `<flag><name(p)>` per filter, in order. */
  function LuaFilters(filters: seq<string>, flag: string, name: string -> string): (r: seq<string>)
    ensures |r| == |filters|
  {
    if filters == [] then []
    else LuaFilters(filters[..|filters| - 1], flag, name) + [flag + name(filters[|filters| - 1])]
  }

  /** The `k`-th argument names the `k`-th filter. */
  lemma {:induction false} LuaFiltersAt(filters: seq<string>, flag: string, name: string -> string)
    ensures forall k :: 0 <= k < |filters| ==> LuaFilters(filters, flag, name)[k] == flag + name(filters[k])
    decreases |filters|
  {
    if filters != [] {
      var init := filters[..|filters| - 1];
      LuaFiltersAt(init, flag, name);
      assert forall k :: 0 <= k < |init| ==> filters[k] == init[k];
    }
  }

  /** One `-v <dirname(p)>:/filters` pair per filter, in order. */
  function FilterMounts(filters: seq<string>, paths: PathOps): (r: seq<string>)
    ensures |r| == 2 * |filters|
  {
    if filters == [] then []
    else FilterMounts(filters[..|filters| - 1], paths) + ["-v", paths.dirname(filters[|filters| - 1]) + ":/filters"]
  }

  /** The `k`-th pair mounts the directory of the `k`-th filter. */
  lemma {:induction false} FilterMountsAt(filters: seq<string>, paths: PathOps)
    ensures forall k :: 0 <= k < |filters| ==>
      FilterMounts(filters, paths)[2 * k] == "-v" && FilterMounts(filters, paths)[2 * k + 1] == paths.dirname(filters[k]) + ":/filters"
    decreases |filters|
  {
    if filters != [] {
      var init := filters[..|filters| - 1];
      FilterMountsAt(init, paths);
      assert forall k :: 0 <= k < |init| ==> filters[k] == init[k];
    }
  }

  function Identity(s: string): string { s }

  /** The host command: `pandoc`, the common arguments, the extra arguments,
      the filters, the resource path and the header. */
  function LocalCmd(combinedMd: string, pdfOutput: string, resourcePath: string, headerFile: string,
                    filters: seq<string>, extraArgs: seq<string>): seq<string>
  {
    ["pandoc"] + PandocArgs(combinedMd, pdfOutput) + extraArgs
    + LuaFilters(filters, "--lua-filter=", Identity) + ["--resource-path=" + resourcePath, "-H", headerFile]
  }

  /** The docker command: the three directory mounts, one mount per filter's
      directory, the image, the common arguments on the container's paths,
      the clone as resource path, the header, and the filters by base name
      under `/filters`. */
  function DockerCmd(paths: PathOps, outDir: string, tempDir: string, cloneDir: string, combinedMd: string,
                     pdfOutput: string, headerFile: string, filters: seq<string>): seq<string>
  {
    DockerMounts(paths, outDir, tempDir, cloneDir) + FilterMounts(filters, paths)
    + DockerPandoc(paths, combinedMd, pdfOutput, headerFile)
    + LuaFilters(filters, "--lua-filter=/filters/", paths.basename)
  }

  /** `docker run --rm` and the mounts of the output, temporary and clone
      directories. */
  function DockerMounts(paths: PathOps, outDir: string, tempDir: string, cloneDir: string): (r: seq<string>)
    ensures |r| == 9
  {
    ["docker", "run", "--rm",
     "-v", paths.abspath(outDir) + ":/data",
     "-v", paths.abspath(tempDir) + ":/temp",
     "-v", paths.abspath(cloneDir) + ":/gitbook_repo"]
  }

  /** The image and pandoc's arguments on the container's paths. */
  function DockerPandoc(paths: PathOps, combinedMd: string, pdfOutput: string, headerFile: string): (r: seq<string>)
    ensures |r| == 15
  {
    [DockerImage] + PandocArgs("/temp/" + paths.basename(combinedMd), "/data/" + paths.basename(pdfOutput))
    + ["--resource-path=/gitbook_repo", "-H", "/temp/" + paths.basename(headerFile)]
  }

  /** `build_pandoc_cmd(...)`. */
  method BuildPandocCmd(combinedMd: string, pdfOutput: string, resourcePath: string, headerFile: string,
                        filterPaths: seq<string>, extraArgs: seq<string>) returns (cmd: seq<string>)
    ensures cmd == LocalCmd(combinedMd, pdfOutput, resourcePath, headerFile, filterPaths, extraArgs)
  {
    cmd := ["pandoc", combinedMd, "-o", pdfOutput, "-f", InputFormat, "-t", "latex",
            "--pdf-engine=lualatex", "--toc", "-V", "geometry=a4paper"];
    assert cmd == ["pandoc"] + PandocArgs(combinedMd, pdfOutput);
    if extraArgs != [] {
      cmd := cmd + extraArgs;
    } else {
      assert cmd + extraArgs == cmd;
    }
    ghost var head := cmd;
    var args: seq<string> := [];
    for i := 0 to |filterPaths|
      invariant args == LuaFilters(filterPaths[..i], "--lua-filter=", Identity)
    {
      assert filterPaths[..i + 1][..i] == filterPaths[..i];
      args := args + ["--lua-filter=" + filterPaths[i]];
    }
    assert filterPaths[..|filterPaths|] == filterPaths;
    ghost var lua := args;
    var tail := ["--resource-path=" + resourcePath, "-H", headerFile];
    args := args + tail;
    cmd := cmd + args;
    assert cmd == head + lua + tail;
  }

  /** `build_docker_pandoc_cmd(...)`. */
  method BuildDockerPandocCmd(paths: PathOps, outDir: string, tempDir: string, cloneDir: string, combinedMd: string,
                              pdfOutput: string, headerFile: string, filterPaths: seq<string>)
    returns (cmd: seq<string>)
    ensures cmd == DockerCmd(paths, outDir, tempDir, cloneDir, combinedMd, pdfOutput, headerFile, filterPaths)
  {
    var absOutDir := paths.abspath(outDir);
    var absTempDir := paths.abspath(tempDir);
    var absCloneDir := paths.abspath(cloneDir);
    var dockerCombinedMd := "/temp/" + paths.basename(combinedMd);
    var dockerPdfOutput := "/data/" + paths.basename(pdfOutput);
    var dockerHeaderFile := "/temp/" + paths.basename(headerFile);
    cmd := ["docker", "run", "--rm",
            "-v", absOutDir + ":/data",
            "-v", absTempDir + ":/temp",
            "-v", absCloneDir + ":/gitbook_repo"];
    assert cmd == DockerMounts(paths, outDir, tempDir, cloneDir);
    ghost var mounts := cmd;
    for i := 0 to |filterPaths|
      invariant cmd == mounts + FilterMounts(filterPaths[..i], paths)
    {
      assert filterPaths[..i + 1][..i] == filterPaths[..i];
      cmd := cmd + ["-v", paths.dirname(filterPaths[i]) + ":/filters"];
    }
    assert filterPaths[..|filterPaths|] == filterPaths;
    ghost var filterMounts := FilterMounts(filterPaths, paths);
    var pandoc := [DockerImage, dockerCombinedMd, "-o", dockerPdfOutput, "-f", InputFormat, "-t", "latex",
                   "--pdf-engine=lualatex", "--toc", "-V", "geometry=a4paper",
                   "--resource-path=/gitbook_repo", "-H", dockerHeaderFile];
    assert pandoc == DockerPandoc(paths, combinedMd, pdfOutput, headerFile);
    cmd := cmd + pandoc;
    ghost var front := cmd;
    for i := 0 to |filterPaths|
      invariant cmd == front + LuaFilters(filterPaths[..i], "--lua-filter=/filters/", paths.basename)
    {
      assert filterPaths[..i + 1][..i] == filterPaths[..i];
      cmd := cmd + ["--lua-filter=/filters/" + paths.basename(filterPaths[i])];
    }
    assert filterPaths[..|filterPaths|] == filterPaths;
    assert cmd == mounts + filterMounts + pandoc + LuaFilters(filterPaths, "--lua-filter=/filters/", paths.basename);
  }

  // ---------------------------------------------------------------------------
  // Properties

  /** The host command starts with the twelve fixed arguments, keeps the extra
      arguments as given, then lists every filter in order, and ends with the
      resource path and the header. */
  lemma LocalLayout(combinedMd: string, pdfOutput: string, resourcePath: string, headerFile: string,
                    filters: seq<string>, extraArgs: seq<string>)
    ensures var cmd := LocalCmd(combinedMd, pdfOutput, resourcePath, headerFile, filters, extraArgs);
      var e := |extraArgs|;
      && |cmd| == 12 + e + |filters| + 3
      && cmd[..12] == ["pandoc", combinedMd, "-o", pdfOutput, "-f", InputFormat, "-t", "latex",
                       "--pdf-engine=lualatex", "--toc", "-V", "geometry=a4paper"]
      && cmd[12..12 + e] == extraArgs
      && (forall k :: 0 <= k < |filters| ==> cmd[12 + e + k] == "--lua-filter=" + filters[k])
      && cmd[|cmd| - 3..] == ["--resource-path=" + resourcePath, "-H", headerFile]
  {
    var cmd := LocalCmd(combinedMd, pdfOutput, resourcePath, headerFile, filters, extraArgs);
    var e := |extraArgs|;
    var lua := LuaFilters(filters, "--lua-filter=", Identity);
    LuaFiltersAt(filters, "--lua-filter=", Identity);
    assert cmd == (["pandoc"] + PandocArgs(combinedMd, pdfOutput)) + extraArgs + lua + ["--resource-path=" + resourcePath, "-H", headerFile];
    forall k | 0 <= k < |filters|
      ensures cmd[12 + e + k] == "--lua-filter=" + filters[k]
    {
      assert cmd[12 + e + k] == lua[k];
    }
  }

  /** The docker command, cut into its four parts. */
  lemma DockerParts(paths: PathOps, outDir: string, tempDir: string, cloneDir: string, combinedMd: string,
                    pdfOutput: string, headerFile: string, filters: seq<string>)
    ensures var cmd := DockerCmd(paths, outDir, tempDir, cloneDir, combinedMd, pdfOutput, headerFile, filters);
      var n := |filters|;
      && |cmd| == 24 + 3 * n
      && cmd[..9] == DockerMounts(paths, outDir, tempDir, cloneDir)
      && cmd[9..9 + 2 * n] == FilterMounts(filters, paths)
      && cmd[9 + 2 * n..24 + 2 * n] == DockerPandoc(paths, combinedMd, pdfOutput, headerFile)
      && cmd[24 + 2 * n..] == LuaFilters(filters, "--lua-filter=/filters/", paths.basename)
  {
    var cmd := DockerCmd(paths, outDir, tempDir, cloneDir, combinedMd, pdfOutput, headerFile, filters);
    var head := DockerMounts(paths, outDir, tempDir, cloneDir);
    var mounts := FilterMounts(filters, paths);
    var middle := DockerPandoc(paths, combinedMd, pdfOutput, headerFile);
    var lua := LuaFilters(filters, "--lua-filter=/filters/", paths.basename);
    assert cmd == head + mounts + middle + lua;
  }

  /** The docker command mounts the output, temporary and clone directories
      first, then the directory of every filter on `/filters`, all before the
      image name. */
  lemma DockerMountsFirst(paths: PathOps, outDir: string, tempDir: string, cloneDir: string, combinedMd: string,
                          pdfOutput: string, headerFile: string, filters: seq<string>)
    ensures var cmd := DockerCmd(paths, outDir, tempDir, cloneDir, combinedMd, pdfOutput, headerFile, filters);
      var n := |filters|;
      && |cmd| == 24 + 3 * n
      && cmd[..9] == ["docker", "run", "--rm",
                      "-v", paths.abspath(outDir) + ":/data",
                      "-v", paths.abspath(tempDir) + ":/temp",
                      "-v", paths.abspath(cloneDir) + ":/gitbook_repo"]
      && (forall k :: 0 <= k < n ==> cmd[9 + 2 * k] == "-v" && cmd[10 + 2 * k] == paths.dirname(filters[k]) + ":/filters")
      && cmd[9 + 2 * n] == "erda-pandoc"
  {
    var n := |filters|;
    var cmd := DockerCmd(paths, outDir, tempDir, cloneDir, combinedMd, pdfOutput, headerFile, filters);
    DockerParts(paths, outDir, tempDir, cloneDir, combinedMd, pdfOutput, headerFile, filters);
    var mounts := FilterMounts(filters, paths);
    FilterMountsAt(filters, paths);
    forall k | 0 <= k < n
      ensures cmd[9 + 2 * k] == "-v" && cmd[10 + 2 * k] == paths.dirname(filters[k]) + ":/filters"
    {
      assert cmd[9 + 2 * k] == cmd[9..9 + 2 * n][2 * k] == mounts[2 * k];
      assert cmd[10 + 2 * k] == cmd[9..9 + 2 * n][2 * k + 1] == mounts[2 * k + 1];
    }
    assert cmd[9 + 2 * n] == cmd[9 + 2 * n..24 + 2 * n][0];
  }

  /** Inside the container pandoc reads `/temp/<name>`, writes
      `/data/<name>`, looks for resources in the clone and includes the header
      from `/temp`. */
  lemma DockerPaths(paths: PathOps, outDir: string, tempDir: string, cloneDir: string, combinedMd: string,
                    pdfOutput: string, headerFile: string, filters: seq<string>)
    ensures var cmd := DockerCmd(paths, outDir, tempDir, cloneDir, combinedMd, pdfOutput, headerFile, filters);
      var n := |filters|;
      && |cmd| == 24 + 3 * n
      && cmd[10 + 2 * n] == "/temp/" + paths.basename(combinedMd)
      && cmd[12 + 2 * n] == "/data/" + paths.basename(pdfOutput)
      && cmd[21 + 2 * n..24 + 2 * n] == ["--resource-path=/gitbook_repo", "-H", "/temp/" + paths.basename(headerFile)]
  {
    var n := |filters|;
    var cmd := DockerCmd(paths, outDir, tempDir, cloneDir, combinedMd, pdfOutput, headerFile, filters);
    DockerParts(paths, outDir, tempDir, cloneDir, combinedMd, pdfOutput, headerFile, filters);
    var middle := DockerPandoc(paths, combinedMd, pdfOutput, headerFile);
    assert cmd[10 + 2 * n] == middle[1];
    assert cmd[12 + 2 * n] == middle[3];
    assert cmd[21 + 2 * n..24 + 2 * n] == middle[12..];
  }

  /** The docker command ends with every filter, by base name under
      `/filters`, in order. */
  lemma DockerFiltersLast(paths: PathOps, outDir: string, tempDir: string, cloneDir: string, combinedMd: string,
                          pdfOutput: string, headerFile: string, filters: seq<string>)
    ensures var cmd := DockerCmd(paths, outDir, tempDir, cloneDir, combinedMd, pdfOutput, headerFile, filters);
      var n := |filters|;
      && |cmd| == 24 + 3 * n
      && (forall k :: 0 <= k < n ==> cmd[24 + 2 * n + k] == "--lua-filter=/filters/" + paths.basename(filters[k]))
  {
    var n := |filters|;
    var cmd := DockerCmd(paths, outDir, tempDir, cloneDir, combinedMd, pdfOutput, headerFile, filters);
    DockerParts(paths, outDir, tempDir, cloneDir, combinedMd, pdfOutput, headerFile, filters);
    LuaFiltersAt(filters, "--lua-filter=/filters/", paths.basename);
    forall k | 0 <= k < n
      ensures cmd[24 + 2 * n + k] == "--lua-filter=/filters/" + paths.basename(filters[k])
    {
      assert cmd[24 + 2 * n + k] == cmd[24 + 2 * n..][k];
    }
  }

  /** Without filters the docker command has exactly the three directory
      mounts and no `--lua-filter`. */
  lemma DockerWithoutFilters(paths: PathOps, outDir: string, tempDir: string, cloneDir: string, combinedMd: string,
                             pdfOutput: string, headerFile: string)
    ensures var cmd := DockerCmd(paths, outDir, tempDir, cloneDir, combinedMd, pdfOutput, headerFile, []);
      && |cmd| == 24
      && cmd[9] == "erda-pandoc"
      && (forall k :: 9 <= k < 24 ==> cmd[k] != "-v")
  {
    var cmd := DockerCmd(paths, outDir, tempDir, cloneDir, combinedMd, pdfOutput, headerFile, []);
    DockerParts(paths, outDir, tempDir, cloneDir, combinedMd, pdfOutput, headerFile, []);
    assert cmd[9..24] == DockerPandoc(paths, combinedMd, pdfOutput, headerFile);
    forall k | 9 <= k < 24
      ensures cmd[k] != "-v"
    {
      assert cmd[k] == DockerPandoc(paths, combinedMd, pdfOutput, headerFile)[k - 9];
    }
  }
}
