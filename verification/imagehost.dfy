/** Image-host paths: which stored paths live on the host, and the public id a destroy call is
    given for one of them. */
module ImageHost {
  import opened Js

  /** A stored path the host serves; only these are ever destroyed. */
  predicate Hosted(path: string) {
    Includes(path, "cloudinary")
  }

  /** The public id of a hosted URL: the second-to-last `/` segment, a `/`, and the last segment
      cut at its first `.`. A path with no `/` has no second-to-last segment, and the template
      string spells the missing folder as "undefined". */
  function PublicId(path: string): (id: string)
    ensures '/' in id
  {
    var parts := Split(path, '/');
    var file := Split(parts[|parts| - 1], '.')[0];
    var folder := if |parts| >= 2 then parts[|parts| - 2] else "undefined";
    var id := folder + "/" + file;
    assert id[|folder|] == '/';
    id
  }

  /** For a URL of the usual shape `<anything>/<folder>/<name>.<ext>` the public id is
      `<folder>/<name>`, whatever the prefix and the extension contain. */
  lemma PublicIdOfUrl(prefix: string, folder: string, name: string, ext: string)
    requires '/' !in folder && '/' !in name && '/' !in ext && '.' !in name
    ensures PublicId(prefix + "/" + folder + "/" + name + "." + ext) == folder + "/" + name
  {
    var file := name + "." + ext;
    assert file == name + ['.'] + ext;
    assert '/' !in file;
    LastTwoSegments(prefix, folder, file);
    assert prefix + "/" + folder + "/" + name + "." + ext == prefix + ['/'] + folder + ['/'] + file;
    SplitAtSeparator(name, ext, '.');
    SplitNoSeparator(name, '.');
    assert Split(file, '.')[0] == name;
  }

  /** The last two `/` segments of `<prefix>/<folder>/<file>` are the folder and the file. */
  lemma LastTwoSegments(prefix: string, folder: string, file: string)
    requires '/' !in folder && '/' !in file
    ensures var parts := Split(prefix + ['/'] + folder + ['/'] + file, '/');
      |parts| >= 2 && parts[|parts| - 1] == file && parts[|parts| - 2] == folder
  {
    var path := prefix + ['/'] + folder + ['/'] + file;
    assert path == prefix + ['/'] + (folder + ['/'] + file);
    SplitAtSeparator(prefix, folder + ['/'] + file, '/');
    SplitAtSeparator(folder, file, '/');
    SplitNoSeparator(folder, '/');
    SplitNoSeparator(file, '/');
    var parts := Split(path, '/');
    var front := Split(prefix, '/');
    assert parts == front + [folder, file];
    assert |parts| == |front| + 2;
    assert parts[|front|] == folder && parts[|front| + 1] == file;
  }

  /** A path with no `/` at all names no folder. */
  lemma PublicIdWithoutFolder(file: string)
    requires '/' !in file && '.' !in file
    ensures PublicId(file) == "undefined/" + file
  {
    SplitNoSeparator(file, '/');
    SplitNoSeparator(file, '.');
  }
}
