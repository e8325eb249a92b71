/** `add_nozzle_movement`: every per-layer G-code file of a directory gets two lines appended, a
    retraction and a travel move to the camera position, so that the nozzle is out of the
    picture when the layer is done. The directory is a map from file name to file content. */
module NozzleMove {
  import opened Text

  /** Pulls the filament back before the travel. */
  const Retract := "G1 E-1."

  /** The travel to the photo position; `x` and `y` are the text `str()` gives for the
      coordinates. */
  function Travel(x: string, y: string): string {
    "G1 X" + x + " Y" + y + " F9000"
  }

  /** What one call appends to a file: the retraction on a fresh line, then the travel. */
  function Block(x: string, y: string): string {
    "\n" + Retract + "\n" + Travel(x, y) + "\n"
  }

  /** Per-layer files are changed; the setup and end files and anything else are not. */
  predicate Eligible(name: string) {
    EndsWith(name, ".gcode") && name != "end.gcode" && name != "layer_0.gcode"
  }

  /** The directory after one call. */
  function Moved(files: map<string, string>, x: string, y: string): (r: map<string, string>)
    ensures r.Keys == files.Keys
  {
    map name | name in files :: if Eligible(name) then files[name] + Block(x, y) else files[name]
  }

  /** The directory the files live in. */
  class Directory {
    var files: map<string, string>

    constructor (files: map<string, string>)
      ensures this.files == files
    {
      this.files := files;
    }

    /** `add_nozzle_movement`: the entries are visited in whatever order the directory lists
        them, and each eligible file is opened for appending and written twice. */
    method AddNozzleMovement(x: string, y: string)
      modifies this
      ensures files == Moved(old(files), x, y)
    {
      ghost var start := files;
      var todo := files.Keys;
      while todo != {}
        invariant todo <= start.Keys && files.Keys == start.Keys
        invariant forall n :: n in todo ==> files[n] == start[n]
        invariant forall n :: n in start && n !in todo ==> files[n] == Moved(start, x, y)[n]
        decreases |todo|
      {
        var name :| name in todo;
        if Eligible(name) {
          files := files[name := files[name] + ("\n" + Retract + "\n")];
          files := files[name := files[name] + (Travel(x, y) + "\n")];
          TwoWrites(start[name], x, y);
        }
        todo := todo - {name};
      }
      assert files == Moved(start, x, y);
    }
  }

  /** The two writes together append one block. */
  lemma TwoWrites(content: string, x: string, y: string)
    ensures content + ("\n" + Retract + "\n") + (Travel(x, y) + "\n") == content + Block(x, y)
  {
  }

  /** A changed file keeps its old content as a prefix and gains exactly one block; every other
      file is left as it was. */
  lemma MovedAppends(files: map<string, string>, x: string, y: string, name: string)
    requires name in files
    ensures var after := Moved(files, x, y)[name];
      (Eligible(name) ==> |after| == |files[name]| + |Block(x, y)| && after[..|files[name]|] == files[name]
                          && after[|files[name]|..] == Block(x, y))
      && (!Eligible(name) ==> after == files[name])
  {
    var before, after := files[name], Moved(files, x, y)[name];
    if Eligible(name) {
      assert after == before + Block(x, y);
      assert after[..|before|] == before;
      assert after[|before|..] == Block(x, y);
    }
  }

  /** The block starts a new line with the retraction and ends with the travel on the line
      after it. */
  lemma BlockOrder(x: string, y: string)
    ensures var b, r := Block(x, y), |Retract|;
      b[0] == '\n' && b[1..r + 1] == Retract && b[r + 1] == '\n'
      && b[r + 2..|b| - 1] == Travel(x, y) && b[|b| - 1] == '\n'
  {
    var b, r := Block(x, y), |Retract|;
    assert b == "\n" + Retract + "\n" + Travel(x, y) + "\n";
    assert b[1..r + 1] == Retract;
    assert b[r + 2..|b| - 1] == Travel(x, y);
  }

  /** The setup file `layer_0.gcode` and `end.gcode` are never changed, nor is any file that is
      not G-code; a file `layer_<n>.gcode` for another layer is. */
  lemma EligibleNames(n: string)
    ensures !Eligible("layer_0.gcode") && !Eligible("end.gcode") && !Eligible("notes.txt")
    ensures n != "0" ==> Eligible("layer_" + n + ".gcode")
  {
    assert "notes.txt"[|"notes.txt"| - |".gcode"|..] != ".gcode" by {
      assert "notes.txt"[3] != '.';
    }
    if n != "0" {
      var name := "layer_" + n + ".gcode";
      assert name[|name| - |".gcode"|..] == ".gcode";
      assert name[6..|name| - 6] == n;
      assert "layer_0.gcode"[6..7] == "0";
    }
  }

  /** A second call appends a second block: each call adds exactly one. */
  lemma MovedTwice(files: map<string, string>, x: string, y: string, name: string)
    requires name in files && Eligible(name)
    ensures Moved(Moved(files, x, y), x, y)[name] == files[name] + Block(x, y) + Block(x, y)
  {
  }
}
