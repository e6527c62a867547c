/** The configuration tables: the supported projects with their fuzz targets, per
    compiler, and the per-project blacklist of source files the static analyser skips. */
module Config {
  import opened Common
  import opened PyStr
  import opened ODict

  /** `_projects`: every supported project and its fuzz targets, in declaration order. */
  const AllProjects: Dict<string, seq<string>> := [
    ("bzip2", Bzip2Targets),
    ("libdwarf", LibdwarfTargets),
    ("libexif", LibexifTargets),
    ("liblouis", LiblouisTargets),
    ("libmpeg2", Libmpeg2Targets),
    ("libpcap", LibpcapTargets),
    ("libpng", LibpngTargets),
    ("libssh", LibsshTargets),
    ("lighttpd", LighttpdTargets),
    ("libyaml", LibyamlTargets),
    ("wasm3", Wasm3Targets),
    ("zlib", ZlibTargets),
    ("zydis", ZydisTargets)
  ]

  const Bzip2Targets: seq<string> := ["bzip2_compress_target", "bzip2_decompress_target",
    "bzip2_fd", "bzip2_filename"]
  const LibdwarfTargets: seq<string> := ["fuzz_aranges", "fuzz_debug_addr_access",
    "fuzz_debug_str", "fuzz_debuglink", "fuzz_die_cu", "fuzz_die_cu_attrs",
    "fuzz_die_cu_attrs_loclist", "fuzz_die_cu_info1", "fuzz_die_cu_offset", "fuzz_die_cu_print",
    "fuzz_dnames", "fuzz_findfuncbypc", "fuzz_gdbindex", "fuzz_globals", "fuzz_gnu_index",
    "fuzz_init_b", "fuzz_init_binary", "fuzz_init_path", "fuzz_macro_dwarf4", "fuzz_macro_dwarf5",
    "fuzz_rng", "fuzz_showsectgrp", "fuzz_simplereader_tu", "fuzz_srcfiles",
    "fuzz_stack_frame_access", "fuzz_str_offsets", "fuzz_tie", "fuzz_xuindex"]
  const LibexifTargets: seq<string> := ["exif_from_data_fuzzer", "exif_loader_fuzzer"]
  const LiblouisTargets: seq<string> := ["fuzz_translate_generic", "fuzz_backtranslate"]
  const Libmpeg2Targets: seq<string> := ["mpeg2_dec_fuzzer"]
  const LibpcapTargets: seq<string> := ["fuzz_both"]
  const LibpngTargets: seq<string> := ["libpng_read_fuzzer"]
  const LibsshTargets: seq<string> := ["ssh_client_fuzzer", "ssh_known_hosts_fuzzer",
    "ssh_privkey_fuzzer", "ssh_pubkey_fuzzer"]
  const LighttpdTargets: seq<string> := ["fuzz_burl"]
  const LibyamlTargets: seq<string> := ["libyaml_emitter_fuzzer", "libyaml_parser_fuzzer",
    "libyaml_scanner_fuzzer", "libyaml_deconstructor_alt_fuzzer", "libyaml_dumper_fuzzer",
    "libyaml_loader_fuzzer", "libyaml_deconstructor_fuzzer", "libyaml_reformatter_fuzzer",
    "libyaml_reformatter_alt_fuzzer"]
  const Wasm3Targets: seq<string> := ["fuzzer"]
  const ZlibTargets: seq<string> := ["checksum_fuzzer", "compress_fuzzer", "example_dict_fuzzer",
    "example_flush_fuzzer", "example_large_fuzzer", "example_small_fuzzer", "minigzip_fuzzer",
    "zlib_uncompress2_fuzzer", "zlib_uncompress_fuzzer"]
  const ZydisTargets: seq<string> := ["ZydisFuzzDecoder", "ZydisFuzzEncoder", "ZydisFuzzReEncoding"]

  /** `d.pop(k)` with the popped value dropped: a missing key raises KeyError; otherwise
      the entry of `k` goes and the others keep their order. */
  function Pop(d: Dict<string, seq<string>>, k: string): (r: Result<Dict<string, seq<string>>>)
    ensures r.Fail? <==> k !in Keys(d)
    ensures r.Fail? ==> r.fault == KeyError(k)
  {
    if d == [] then Fail(KeyError(k))
    else if d[0].0 == k then Ok(d[1..])
    else
      assert Keys(d) == [d[0].0] + Keys(d[1..]);
      var rest :- Pop(d[1..], k);
      Ok([d[0]] + rest)
  }

  /** `projects[compiler]`: gcc gets a copy of every project; clang a copy with
      liblouis, libpcap and libmpeg2 popped. */
  function ProjectsFor(compiler: string): Result<Dict<string, seq<string>>> {
    if compiler == "gcc" then Ok(AllProjects)
    else if compiler == "clang" then WithoutClangFailures(AllProjects)
    else Fail(KeyError(compiler))
  }

  /** The three pops that derive the clang table from a copy of `d`. */
  function WithoutClangFailures(d: Dict<string, seq<string>>): Result<Dict<string, seq<string>>> {
    var a :- Pop(d, "liblouis");
    var b :- Pop(a, "libpcap");
    Pop(b, "libmpeg2")
  }

  /** `projects_minimal[compiler]`: the entries of wasm3 and zydis, in table order. */
  function MinimalFor(compiler: string): Result<Dict<string, seq<string>>> {
    if compiler == "gcc" || compiler == "clang" then Ok(KeepOnly(AllProjects, ["wasm3", "zydis"]))
    else Fail(KeyError(compiler))
  }

  /** `{k: v for k, v in d.items() if k in ks}`. */
  function KeepOnly(d: Dict<string, seq<string>>, ks: seq<string>): (r: Dict<string, seq<string>>)
    ensures forall e :: e in r <==> e in d && e.0 in ks
  {
    if d == [] then []
    else (if d[0].0 in ks then [d[0]] else []) + KeepOnly(d[1..], ks)
  }

  /** With distinct keys, popping `k` removes exactly its entry. */
  lemma {:induction false} PopSpec(d: Dict<string, seq<string>>, k: string)
    requires Distinct(Keys(d)) && k in Keys(d)
    ensures Pop(d, k).Ok?
    ensures |Pop(d, k).value| == |d| - 1 && Distinct(Keys(Pop(d, k).value))
    ensures forall e :: e in Pop(d, k).value <==> e in d && e.0 != k
  {
    assert Keys(d) == [d[0].0] + Keys(d[1..]);
    if d[0].0 == k {
      forall e | e in d[1..] ensures e.0 != k {
        var i :| 0 <= i < |d[1..]| && d[1..][i] == e;
        assert Keys(d)[0] != Keys(d)[i + 1];
      }
    } else {
      PopSpec(d[1..], k);
      var rest := Pop(d[1..], k).value;
      assert Pop(d, k).value == [d[0]] + rest;
      assert Keys([d[0]] + rest) == [d[0].0] + Keys(rest);
      forall j | 0 <= j < |rest| ensures rest[j].0 != d[0].0 {
        assert rest[j] in d[1..];
        var i :| 0 <= i < |d[1..]| && d[1..][i] == rest[j];
        assert Keys(d)[0] != Keys(d)[i + 1];
      }
    }
  }

  /** The project names of the table, in order. */
  const ProjectNames: seq<string> := ["bzip2", "libdwarf", "libexif", "liblouis", "libmpeg2", "libpcap",
    "libpng", "libssh", "lighttpd", "libyaml", "wasm3", "zlib", "zydis"]

  lemma ProjectNamesOfTable()
    ensures Keys(AllProjects) == ProjectNames
  {
    var ks := Keys(AllProjects);
    forall i | 0 <= i < |ks| ensures ks[i] == ProjectNames[i] {
      assert ks[i] == AllProjects[i].0;
    }
  }

  /** The table names each project once. */
  lemma ProjectNamesDistinct()
    ensures Distinct(ProjectNames)
  {
    var ks := ProjectNames;
    forall i, j | 0 <= i < j < |ks| ensures ks[i] != ks[j] {
      if |ks[i]| == |ks[j]| {
        assert ks[i][..4] != ks[j][..4] || ks[i][4..] != ks[j][4..];
      }
    }
  }

  /** Three pops of distinct keys present in a table with distinct keys remove exactly
      those three entries. */
  lemma ThreePops(d: Dict<string, seq<string>>, x: string, y: string, z: string)
    requires Distinct(Keys(d)) && x in Keys(d) && y in Keys(d) && z in Keys(d)
    requires x != y && y != z && x != z
    ensures Pop(d, x).Ok? && Pop(Pop(d, x).value, y).Ok? && Pop(Pop(Pop(d, x).value, y).value, z).Ok?
    ensures var c := Pop(Pop(Pop(d, x).value, y).value, z).value;
            |c| == |d| - 3 && forall e :: e in c <==> e in d && e.0 != x && e.0 != y && e.0 != z
  {
    KeyStays(d, y, x);
    KeyStays(d, z, x);
    PopSpec(d, x);
    var a := Pop(d, x).value;
    PopSpec(a, y);
    var b := Pop(a, y).value;
    KeyStays(a, z, y);
    PopSpec(b, z);
  }

  /** On any table with distinct keys naming the three projects, the clang pops remove
      exactly those three entries. */
  lemma ClangPops(d: Dict<string, seq<string>>)
    requires Distinct(Keys(d))
    requires "liblouis" in Keys(d) && "libpcap" in Keys(d) && "libmpeg2" in Keys(d)
    ensures WithoutClangFailures(d).Ok?
    ensures |WithoutClangFailures(d).value| == |d| - 3
    ensures forall e :: e in WithoutClangFailures(d).value <==>
              e in d && e.0 != "liblouis" && e.0 != "libpcap" && e.0 != "libmpeg2"
  {
    var x, y, z := "liblouis", "libpcap", "libmpeg2";
    assert x[4] != y[4] && y[4] != z[4] && x[4] != z[4];
    ThreePops(d, x, y, z);
  }

  /** A key other than the popped one survives the pop. */
  lemma KeyStays(d: Dict<string, seq<string>>, k: string, popped: string)
    requires Distinct(Keys(d)) && popped in Keys(d)
    requires k in Keys(d) && k != popped
    ensures Pop(d, popped).Ok? && k in Keys(Pop(d, popped).value)
  {
    PopSpec(d, popped);
    var r := Pop(d, popped).value;
    var i :| 0 <= i < |d| && Keys(d)[i] == k;
    assert d[i] in r;
    EntryKey(r, d[i]);
  }

  /** The gcc table is the whole table; the clang table holds the other projects,
      each with the same fuzz targets. */
  lemma ClangTable()
    ensures ProjectsFor("gcc") == Ok(AllProjects)
    ensures ProjectsFor("clang").Ok?
    ensures |ProjectsFor("clang").value| == |AllProjects| - 3
    ensures forall e :: e in ProjectsFor("clang").value <==>
              e in AllProjects && e.0 != "liblouis" && e.0 != "libpcap" && e.0 != "libmpeg2"
  {
    ProjectNamesDistinct();
    ProjectNamesOfTable();
    assert Distinct(Keys(AllProjects));
    assert ProjectNames[3] == "liblouis" && ProjectNames[5] == "libpcap" && ProjectNames[4] == "libmpeg2";
    ClangPops(AllProjects);
  }

  /** The minimal tables hold the entries of wasm3 and zydis and nothing else. */
  lemma MinimalTables(compiler: string)
    requires compiler == "gcc" || compiler == "clang"
    ensures MinimalFor(compiler).Ok?
    ensures forall e :: e in MinimalFor(compiler).value <==> e in AllProjects && e.0 in ["wasm3", "zydis"]
    ensures ("wasm3", Wasm3Targets) in MinimalFor(compiler).value
    ensures ("zydis", ZydisTargets) in MinimalFor(compiler).value
  {
    assert AllProjects[10] == ("wasm3", Wasm3Targets) && AllProjects[12] == ("zydis", ZydisTargets);
  }

  /** `blacklisted(source_name, project_dir)`: source files that crash the static analyser. */
  function Blacklisted(sourceName: string, projectDir: string): bool {
    if Contains(projectDir, "liblouis") then Contains(sourceName, "free.c")
    else if Contains(projectDir, "libdwarf") then Contains(sourceName, ".h")
    else if Contains(projectDir, "libpcap") then Contains(sourceName, "grammar.c") || Contains(sourceName, ".l")
    else false
  }

  /** Only the first project whose name occurs in the directory decides; a directory
      naming none of the three blacklists nothing. */
  lemma BlacklistedCases(sourceName: string, projectDir: string)
    ensures Contains(projectDir, "liblouis") ==> (Blacklisted(sourceName, projectDir) <==> Contains(sourceName, "free.c"))
    ensures !Contains(projectDir, "liblouis") && Contains(projectDir, "libdwarf") ==>
              (Blacklisted(sourceName, projectDir) <==> Contains(sourceName, ".h"))
    ensures !Contains(projectDir, "liblouis") && !Contains(projectDir, "libdwarf") && Contains(projectDir, "libpcap") ==>
              (Blacklisted(sourceName, projectDir) <==> Contains(sourceName, "grammar.c") || Contains(sourceName, ".l"))
    ensures Blacklisted(sourceName, projectDir) ==>
              Contains(projectDir, "liblouis") || Contains(projectDir, "libdwarf") || Contains(projectDir, "libpcap")
  {
  }
}
