/** Unix path components: what makes an archive name plain, and when two names are the same path. */
module Paths {
  import opened Base

  datatype Component = RootDir | CurDir | ParentDir | Normal(name: string)

  function Named(pieces: seq<string>): (r: seq<Component>) {
    if pieces == [] then []
    else
      (if pieces[0] == "" || pieces[0] == "." then []
       else if pieces[0] == ".." then [ParentDir]
       else [Normal(pieces[0])]) + Named(pieces[1..])
  }

  /** `Path::components`: empty pieces and dots vanish, except a leading slash and a leading dot. */
  function Components(path: string): (r: seq<Component>) {
    var pieces := Split(path, {'/'});
    (if path != "" && path[0] == '/' then [RootDir] else if pieces[0] == "." then [CurDir] else []) + Named(pieces)
  }

  /** `validate_archive_file_name`: exactly one component, and it is a normal one. */
  predicate PlainName(name: string) {
    name != "" && |Components(name)| == 1 && Components(name)[0].Normal?
  }

  // Paths, as map keys, are equal when their components are.
  type PathKey = seq<Component>

  predicate Vanishes(piece: string) {
    piece == "" || piece == "."
  }

  lemma {:induction false} NamedIsEmpty(pieces: seq<string>)
    ensures Named(pieces) == [] <==> forall k :: 0 <= k < |pieces| ==> Vanishes(pieces[k])
  {
    if pieces != [] {
      NamedIsEmpty(pieces[1..]);
      assert forall k :: 1 <= k < |pieces| ==> pieces[k] == pieces[1..][k - 1];
      assert forall k :: 0 <= k < |pieces| - 1 ==> pieces[1..][k] == pieces[k + 1];
    }
  }

  /** The names validation accepts: one file name, then nothing but slashes and lone dots. */
  lemma {:induction false} PlainNameShape(name: string)
    ensures PlainName(name) <==>
      var pieces := Split(name, {'/'});
      pieces[0] !in {"", ".", ".."} && forall k :: 1 <= k < |pieces| ==> pieces[k] in {"", "."}
    ensures PlainName(name) ==> Components(name) == [Normal(Split(name, {'/'})[0])]
  {
    var pieces := Split(name, {'/'});
    NamedIsEmpty(pieces[1..]);
    assert forall k :: 1 <= k < |pieces| ==> pieces[k] == pieces[1..][k - 1];
    if name != "" && name[0] == '/' {
      assert pieces[0] == "";
    }
  }

  lemma {:induction false} SlashFreeNameIsOnePiece(name: string)
    requires '/' !in name
    ensures Split(name, {'/'}) == [name]
  {
    if name != "" {
      SlashFreeNameIsOnePiece(name[1..]);
      assert name[0] != '/' && name == [name[0]] + name[1..];
    }
  }

  /** A name without a slash is plain unless it is empty or dots. */
  lemma {:induction false} SlashFreeNameIsPlain(name: string)
    requires '/' !in name && !Vanishes(name) && name != ".."
    ensures PlainName(name)
  {
    SlashFreeNameIsOnePiece(name);
    PlainNameShape(name);
  }

  /** Names without a slash are different paths when they are different strings. */
  lemma {:induction false} SlashFreeNamesAreKeys(a: string, b: string)
    requires '/' !in a && '/' !in b && PlainName(a) && PlainName(b)
    ensures Components(a) == Components(b) ==> a == b
  {
    SlashFreeNameIsOnePiece(a);
    SlashFreeNameIsOnePiece(b);
    PlainNameShape(a);
    PlainNameShape(b);
  }

  /** A trailing slash gives a second plain name for the same path. */
  lemma {:induction false} TrailingSlashIsTheSamePath(name: string)
    requires '/' !in name && PlainName(name)
    ensures PlainName(name + "/") && name + "/" != name && Components(name + "/") == Components(name)
  {
    SlashFreeNameIsOnePiece(name);
    PlainNameShape(name);
    SplitWithTrailingSlash(name);
    PlainNameShape(name + "/");
  }

  lemma {:induction false} SplitWithTrailingSlash(name: string)
    requires '/' !in name
    ensures Split(name + "/", {'/'}) == [name, ""]
  {
    if name != "" {
      assert (name + "/")[1..] == name[1..] + "/";
      assert name[0] != '/' && name == [name[0]] + name[1..];
      SplitWithTrailingSlash(name[1..]);
    } else {
      assert name + "/" == "/" && "/"[1..] == "";
    }
  }
}
