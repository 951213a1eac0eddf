/** The program's file-scope state (main.c:37-46). Option parsing fills these in once;
    `Globals` are the three that the stream processor later overwrites, and they keep
    their values from one processing run to the next. */
module Settings {

  /** `samplerate`, `bitspersample` and `maxfreq` (main.c:38-40). */
  datatype Globals = Globals(samplerate: int, bitspersample: int, maxfreq: int)

  /** The options that nothing writes after parsing: `output_dir`, `avg_int_in_sec`
      and `in_db` (main.c:37, 41-42). */
  datatype Config = Config(outputDir: string, avgIntInSec: int, inDb: bool)

  /** Values before any option or header has been seen. */
  const DEFAULT_GLOBALS: Globals := Globals(0, 0, 100)
  const DEFAULT_CONFIG: Config := Config(".", 60, false)
}
