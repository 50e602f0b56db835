/** Where a generated image is saved: `os.path.join(SAVE_DIR, filename)`
    with `filename = f"{ms}.png"` (`server.py` lines 15 and 79-80). */
module Paths {
  import opened Decimal

  const SaveDir := "./generated_images"

  /** POSIX `os.path.join(dir, name)` for two components. */
  function JoinPath(dir: string, name: string): (path: string)
    ensures |name| <= |path| && path[|path| - |name|..] == name
  {
    if 0 < |name| && name[0] == '/' then name
    else if dir == [] || dir[|dir| - 1] == '/' then dir + name
    else dir + "/" + name
  }

  /** `f"{ms}.png"` */
  function FileName(ms: int): string {
    IntToString(ms) + ".png"
  }

  /** Where an image generated at clock reading `ms` is saved. */
  function ImagePath(ms: int): string {
    JoinPath(SaveDir, FileName(ms))
  }

  /** The saved path is the save directory, a slash, the clock reading in
      decimal, and `.png`. */
  lemma ImagePathShape(ms: int)
    ensures ImagePath(ms) == SaveDir + "/" + IntToString(ms) + ".png"
    ensures ImagePath(ms)[..|SaveDir| + 1] == SaveDir + "/"
    ensures ImagePath(ms)[|ImagePath(ms)| - 4..] == ".png"
  {
    var name := FileName(ms);
    assert name[0] == IntToString(ms)[0];
    assert ImagePath(ms) == SaveDir + "/" + name;
  }

  /** Two clock readings that differ give two different paths. */
  lemma ImagePathInjective(a: int, b: int)
    requires ImagePath(a) == ImagePath(b)
    ensures a == b
  {
    ImagePathShape(a);
    ImagePathShape(b);
    var p := ImagePath(a);
    var lo, hi := |SaveDir| + 1, |p| - 4;
    assert p[lo..hi] == IntToString(a);
    assert p[lo..hi] == IntToString(b);
    IntToStringInjective(a, b);
  }
}
