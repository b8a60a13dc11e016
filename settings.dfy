/**
 * The run configuration that the command-line options set once, before any
 * comparison starts (the globals gIgnoreTimeStamp, gDumpFileImage, gQuiet,
 * gDiffLength and gDirDiff of the original program).
 */
module Settings {

  datatype Config = Config(
    ignoreTimeStamp: bool,  // -t
    dumpImage: bool,        // -d
    quiet: bool,            // -q
    diffLength: nat,        // -n#: the cap on reported differing raw-data positions
    dirDiff: bool)          // directory batch mode

  /** The values the program starts with. */
  const Default: Config := Config(false, false, false, 4, false)
}
