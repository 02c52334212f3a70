/** What paths come to, and that names which are safe to publish stay in their directory. */
module PathTheorems {
  import opened Publication
  import opened Transaction

  // ----- Parts of a text

  lemma Slash(value: string)
    ensures Components(value + "/") == Components(value) + [""]
  {
    assert (value + "/")[..|value|] == value;
  }

  lemma Letter(value: string, front: seq<string>, last: string, c: char)
    requires Components(value) == front + [last] && c != '/'
    ensures Components(value + [c]) == front + [last + [c]]
  {
    assert (value + [c])[..|value|] == value;
  }

  /** The text that the parts make, with slashes between them. */
  function Joined(parts: seq<string>): string
  {
    if parts == [] then "" else if |parts| == 1 then parts[0]
    else Joined(parts[..|parts| - 1]) + "/" + parts[|parts| - 1]
  }

  /** The parts of a text have no slashes, and make the text again. */
  lemma {:induction false} PartsMakeText(value: string)
    ensures forall component :: component in Components(value) ==> '/' !in component
    ensures Joined(Components(value)) == value
  {
    if value != "" {
      var m := |value| - 1;
      PartsMakeText(value[..m]);
      var rest := Components(value[..m]);
      assert value == value[..m] + [value[m]];
      if value[m] == '/' {
        assert (rest + [""])[..|rest|] == rest;
      } else {
        JoinedFurther(rest[..|rest| - 1], rest[|rest| - 1], value[m]);
        assert rest == rest[..|rest| - 1] + [rest[|rest| - 1]];
      }
    }
  }

  lemma JoinedFurther(front: seq<string>, last: string, c: char)
    ensures Joined(front + [last + [c]]) == Joined(front + [last]) + [c]
  {
    assert (front + [last + [c]])[..|front|] == front && (front + [last])[..|front|] == front;
    if front != [] {
      assert Joined(front) + "/" + (last + [c]) == (Joined(front) + "/" + last) + [c];
    }
  }

  lemma LastApart<T>(a: seq<T>, b: seq<T>)
    requires b != []
    ensures var m := |b| - 1; b == b[..m] + [b[m]] && a + b == (a + b[..m]) + [b[m]]
  {
  }

  lemma {:induction false} PartsOfJoined(a: string, b: string)
    ensures Components(a + "/" + b) == Components(a) + Components(b)
    decreases |b|
  {
    if b == "" {
      Slash(a);
      assert a + "/" + b == a + "/";
    } else {
      hide Components;
      var m := |b| - 1;
      PartsOfJoined(a, b[..m]);
      PartsGrow(a + "/" + b[..m], Components(a), b[..m], b[m]);
      LastApart(a + "/", b);
    }
  }

  /** One more character changes the parts at their end only. */
  lemma PartsGrow(whole: string, before: seq<string>, text: string, c: char)
    requires Components(whole) == before + Components(text)
    ensures Components(whole + [c]) == before + Components(text + [c])
  {
    var rest := Components(text);
    hide Components;
    if c == '/' {
      Slash(whole);
      Slash(text);
      assert before + (rest + [""]) == (before + rest) + [""];
    } else {
      var front, last := rest[..|rest| - 1], rest[|rest| - 1];
      assert before + rest == (before + front) + [last];
      Letter(whole, before + front, last, c);
      Letter(text, front, last, c);
    }
  }

  // ----- Normal paths

  lemma NormalizedNext(parts: seq<string>, last: string)
    ensures var front := NormalPath(parts);
      NormalPath(parts + [last])
      == if last == "" || last == "." then front
         else if last == ".." then (if front == [] then [] else front[..|front| - 1])
         else front + [last]
  {
    assert (parts + [last])[..|parts|] == parts;
  }

  /** Normal paths have no dots. */
  lemma {:induction false} NormalHasNoDots(parts: seq<string>)
    ensures "" !in NormalPath(parts) && "." !in NormalPath(parts) && ".." !in NormalPath(parts)
  {
    if parts != [] {
      NormalHasNoDots(parts[..|parts| - 1]);
    }
  }

  lemma {:induction false} PlainPathKept(parts: seq<string>)
    requires forall k :: 0 <= k < |parts| ==> parts[k] != "" && parts[k] != "." && parts[k] != ".."
    ensures NormalPath(parts) == parts
  {
    if parts != [] {
      var m := |parts| - 1;
      PlainPathKept(parts[..m]);
      assert parts == parts[..m] + [parts[m]];
    }
  }

  /** Parts that come to the same path still do with more parts after them. */
  lemma {:induction false} SamePathFurther(a: seq<string>, b: seq<string>, rest: seq<string>)
    requires NormalPath(a) == NormalPath(b)
    ensures NormalPath(a + rest) == NormalPath(b + rest)
    decreases |rest|
  {
    if rest == [] {
      assert a + rest == a && b + rest == b;
    } else {
      hide NormalPath;
      var m := |rest| - 1;
      SamePathFurther(a, b, rest[..m]);
      NormalizedNext(a + rest[..m], rest[m]);
      NormalizedNext(b + rest[..m], rest[m]);
      LastApart(a, rest);
      LastApart(b, rest);
    }
  }

  /** Empty parts and single dots say nothing, two dots take back the part before them, and at the top nothing. */
  lemma PathsNormalize(front: seq<string>, name: string, rest: seq<string>)
    ensures name == "" || name == "." ==> NormalPath(front + [name] + rest) == NormalPath(front + rest)
    ensures name != "" && name != "." && name != ".." ==> NormalPath(front + [name, ".."] + rest) == NormalPath(front + rest)
    ensures NormalPath([".."] + rest) == NormalPath(rest)
  {
    hide NormalPath;
    NormalizedNext(front, name);
    NormalizedNext(front + [name], "..");
    assert front + [name, ".."] == (front + [name]) + [".."];
    if name == "" || name == "." {
      SamePathFurther(front + [name], front, rest);
    } else if name != ".." {
      SamePathFurther(front + [name, ".."], front, rest);
    }
    TopHasNoParent();
    SamePathFurther([".."], [], rest);
    assert [] + rest == rest;
  }

  lemma TopHasNoParent()
    ensures NormalPath([".."]) == NormalPath([])
  {
    NormalizedNext([], "..");
    assert [] + [".."] == [".."];
  }

  ghost predicate Extends(path: Path, directory: Path)
  {
    exists rest :: rest != [] && path == directory + rest
  }

  lemma ExtendsHead(path: Path, directory: Path)
    requires Extends(path, directory) && directory != []
    ensures path != [] && path[0] == directory[0]
  {
    var rest :| rest != [] && path == directory + rest;
  }

  lemma {:induction false} WithinExtends(path: Path, directory: Path)
    requires ".." !in path
    ensures Within(path, directory) <==> Extends(path, directory)
    decreases |path|
  {
    if path != [] && directory != [] && path[0] == directory[0] {
      WithinExtends(path[1..], directory[1..]);
      if Extends(path[1..], directory[1..]) {
        var rest :| rest != [] && path[1..] == directory[1..] + rest;
        assert path == directory + rest;
      }
      if Extends(path, directory) {
        var rest :| rest != [] && path == directory + rest;
        assert path[1..] == directory[1..] + rest;
      }
    } else if directory == [] {
      assert path == directory + path && Relative(path, directory) == path;
    } else {
      assert Relative(path, directory)[0] == ".." && ".." in Relative(path, directory);
      if Extends(path, directory) {
        ExtendsHead(path, directory);
      }
    }
  }

  // ----- Safe names

  /** A name is safe exactly when it has none of four characters and its parts are a normal path as they are. */
  lemma SafeExactly(name: string)
    ensures IsSafeRelativeName(name) <==>
      '\\' !in name && ':' !in name && '\r' !in name && '\n' !in name && NormalPath(Components(name)) == Components(name)
  {
    var parts := Components(name);
    NormalHasNoDots(parts);
    if forall component :: component in parts ==> IsPlainComponent(component) {
      assert forall k :: 0 <= k < |parts| ==> parts[k] in parts;
      PlainPathKept(parts);
    }
  }

  /** So it leads below the directory it is written in, by its parts; other safe names lead elsewhere. */
  lemma SafeNameStaysBelow(directory: string, name: string, other: string)
    requires IsSafeRelativeName(name) && IsSafeRelativeName(other)
    ensures PathOf(directory + "/" + name) == PathOf(directory) + Components(name)
    ensures Extends(PathOf(directory + "/" + name), PathOf(directory))
    ensures PathOf(directory + "/" + name) == PathOf(directory + "/" + other) ==> name == other
  {
    hide Components, IsSafeRelativeName;
    PathBelow(directory, name);
    PathBelow(directory, other);
    PartsMakeText(name);
    PartsMakeText(other);
    var path := PathOf(directory);
    assert (path + Components(name))[|path|..] == Components(name);
    assert (path + Components(other))[|path|..] == Components(other);
  }

  lemma PathBelow(directory: string, name: string)
    requires IsSafeRelativeName(name)
    ensures PathOf(directory + "/" + name) == PathOf(directory) + Components(name)
  {
    SafeExactly(name);
    PartsOfJoined(directory, name);
    NormalHasNoDots(Components(name));
    NormalAppended(Components(directory), Components(name));
  }

  lemma {:induction false} NormalAppended(front: seq<string>, rest: seq<string>)
    requires "" !in rest && "." !in rest && ".." !in rest
    ensures NormalPath(front + rest) == NormalPath(front) + rest
    decreases |rest|
  {
    if rest == [] {
      assert front + rest == front;
    } else {
      var m := |rest| - 1;
      hide NormalPath;
      NormalAppended(front, rest[..m]);
      NormalizedNext(front + rest[..m], rest[m]);
      LastApart(front, rest);
    }
  }
}
