/**
 The names of canonical records. A name is trimmed, cleaned segment by segment and
 accepted when it is one of the fixed records or lies below a replicated directory.
 Cleaning can bring a space to the end of a name, and then the name is not a fixed
 point of cleaning; it may not even be accepted again.
 */
module PathNames {
  import opened Basics

  const EXACT := ["cluster/cluster.json", "control/config.json"]

  const PREFIXES := [
    "control/identity/users/", "control/identity/usernames/", "control/identity/access/", "control/identity/refresh/",
    "control/devices/", "control/device-addresses/", "control/device-public-keys/", "control/access/",
    "control/p2p-delivery/", "control/node-join/", "control/node-join-used/", "control/nodes/",
    "control/node-public-keys/", "control/node-credentials/", "control/routes/", "control/topology/links/",
    "control/revocations/", "cluster/controllers/"]

  // ---------------------------------------------------------------- cleaning

  /** The parts of a name between slashes. */
  function Segments(s: string): (r: seq<string>)
    ensures r != []
  {
    if s == "" then [""]
    else
      var n := |s| - 1;
      var front := Segments(s[..n]);
      if s[n] == '/' then front + [""] else front[|front| - 1 := front[|front| - 1] + [s[n]]]
  }

  function Joined(segments: seq<string>): string {
    if segments == [] then ""
    else if |segments| == 1 then segments[0]
    else Joined(segments[..|segments| - 1]) + "/" + segments[|segments| - 1]
  }

  /** Empty parts and "." are dropped, and ".." takes the part before it away. */
  function Push(done: seq<string>, segment: string): seq<string> {
    if segment == "" || segment == "." then done
    else if segment == ".." && done != [] && done[|done| - 1] != ".." then done[..|done| - 1]
    else done + [segment]
  }

  function Cleaned(segments: seq<string>): seq<string> {
    if segments == [] then [] else Push(Cleaned(segments[..|segments| - 1]), segments[|segments| - 1])
  }

  predicate Replicated(name: string) {
    name in EXACT || exists i :: 0 <= i < |PREFIXES| && HasPrefix(name, PREFIXES[i]) && |name| > |PREFIXES[i]|
  }

  /** The canonical name of a path, or None when it is absolute or not replicated. */
  function Normalize(path: string): Option<string> {
    var name := Joined(Cleaned(Segments(Trim(path))));
    if HasPrefix(path, "/") || HasPrefix(Trim(path), "/") || !Replicated(name) then None else Some(name)
  }

  // ---------------------------------------------------------------- splitting and joining

  predicate NoSlash(s: string) {
    forall i :: 0 <= i < |s| ==> s[i] != '/'
  }

  predicate NoSlashes(segments: seq<string>) {
    forall i :: 0 <= i < |segments| ==> NoSlash(segments[i])
  }

  lemma {:induction false} SegmentsHaveNoSlash(s: string)
    ensures NoSlashes(Segments(s))
  {
    if s != "" {
      SegmentsHaveNoSlash(s[..|s| - 1]);
    }
  }

  lemma {:induction false} SegmentsOfPart(t: string)
    requires NoSlash(t)
    ensures Segments(t) == [t]
  {
    if t != "" {
      SegmentsOfPart(t[..|t| - 1]);
      assert t == t[..|t| - 1] + [t[|t| - 1]];
    }
  }

  lemma {:induction false} SegmentsAppend(s: string, t: string)
    requires NoSlash(t)
    ensures Segments(s + "/" + t) == Segments(s) + [t]
  {
    var whole := s + "/" + t;
    var n := |whole| - 1;
    if t == "" {
      assert whole[..n] == s;
    } else {
      var front := t[..|t| - 1];
      assert whole[..n] == s + "/" + front && whole[n] == t[|t| - 1];
      SegmentsAppend(s, front);
      assert t == front + [t[|t| - 1]];
    }
  }

  lemma {:induction false} SegmentsOfJoined(segments: seq<string>)
    requires segments != [] && NoSlashes(segments)
    ensures Segments(Joined(segments)) == segments
  {
    var n := |segments| - 1;
    if n == 0 {
      SegmentsOfPart(segments[0]);
    } else {
      SegmentsOfJoined(segments[..n]);
      SegmentsAppend(Joined(segments[..n]), segments[n]);
    }
  }

  /** The characters of the parts and one slash behind each. */
  function Size(segments: seq<string>): nat {
    if segments == [] then 0 else Size(segments[..|segments| - 1]) + |segments[|segments| - 1]| + 1
  }

  lemma {:induction false} JoinedSize(segments: seq<string>)
    ensures segments != [] ==> |Joined(segments)| + 1 == Size(segments)
  {
    if |segments| > 1 {
      JoinedSize(segments[..|segments| - 1]);
    }
  }

  lemma {:induction false} SegmentsSize(s: string)
    ensures Size(Segments(s)) == |s| + 1
  {
    if s != "" {
      var n := |s| - 1;
      var front := Segments(s[..n]);
      SegmentsSize(s[..n]);
      assert Segments(s)[..|Segments(s)| - 1] == if s[n] == '/' then front else front[..|front| - 1];
    }
  }

  // ---------------------------------------------------------------- cleaning is idempotent on parts

  /** Nothing that cleaning would take away. */
  predicate Tidy(segments: seq<string>) {
    forall i :: 0 <= i < |segments| ==>
      segments[i] != "" && segments[i] != "." && (segments[i] == ".." && 0 < i ==> segments[i - 1] == "..")
  }

  lemma PushIsTidy(done: seq<string>, segment: string)
    requires Tidy(done) && NoSlashes(done) && NoSlash(segment)
    ensures Tidy(Push(done, segment)) && NoSlashes(Push(done, segment)) && Size(Push(done, segment)) <= Size(done) + |segment| + 1
  {
    assert (done + [segment])[..|done|] == done;
  }

  lemma {:induction false} CleanedIsTidy(segments: seq<string>)
    requires NoSlashes(segments)
    ensures Tidy(Cleaned(segments)) && NoSlashes(Cleaned(segments)) && Size(Cleaned(segments)) <= Size(segments)
  {
    if segments != [] {
      var n := |segments| - 1;
      CleanedIsTidy(segments[..n]);
      PushIsTidy(Cleaned(segments[..n]), segments[n]);
    }
  }

  lemma {:induction false} TidyIsClean(segments: seq<string>)
    requires Tidy(segments)
    ensures Cleaned(segments) == segments
  {
    if segments != [] {
      var n := |segments| - 1;
      TidyIsClean(segments[..n]);
      assert segments == segments[..n] + [segments[n]];
      assert segments[n] == ".." && n > 0 ==> segments[..n][n - 1] == "..";
    }
  }

  /** Cleaning the parts of a cleaned name again changes nothing, and never makes a name longer. */
  lemma CleanedAgain(s: string)
    ensures var parts := Cleaned(Segments(s));
            |Joined(parts)| <= |s| && (parts != [] ==> Cleaned(Segments(Joined(parts))) == parts)
  {
    var parts := Cleaned(Segments(s));
    SegmentsHaveNoSlash(s);
    CleanedIsTidy(Segments(s));
    SegmentsSize(s);
    JoinedSize(parts);
    if parts != [] {
      SegmentsOfJoined(parts);
      TidyIsClean(parts);
    }
  }

  // ---------------------------------------------------------------- cleaning a name again

  lemma ReplicatedBeginsWithC(name: string)
    requires Replicated(name)
    ensures name != "" && name[0] == 'c'
  {
    if name !in EXACT {
      var i :| 0 <= i < |PREFIXES| && HasPrefix(name, PREFIXES[i]) && |name| > |PREFIXES[i]|;
      assert |PREFIXES[i]| > 0 && PREFIXES[i][0] == 'c';
      assert name[0] == name[..|PREFIXES[i]|][0];
    }
  }

  lemma {:induction false} TrimRightShortens(s: string)
    ensures |TrimRight(s)| <= |s|
  {
    if s != "" && IsSpace(s[|s| - 1]) {
      TrimRightShortens(s[..|s| - 1]);
    }
  }

  lemma TrimOfName(name: string)
    requires name != "" && !IsSpace(name[0])
    ensures if IsSpace(name[|name| - 1]) then |Trim(name)| < |name| else Trim(name) == name
  {
    assert TrimLeft(name) == name;
    if IsSpace(name[|name| - 1]) {
      TrimRightShortens(name[..|name| - 1]);
    }
  }

  lemma NothingJoined()
    ensures Joined([]) == ""
  {
  }

  /** A canonical name is its own canonical name if and only if it does not end in a space. */
  lemma FixedIffNoTrailingSpace(path: string)
    requires Normalize(path).Some?
    ensures var name := Normalize(path).value;
            name != "" && (Normalize(name) == Some(name) <==> !IsSpace(name[|name| - 1]))
  {
    hide Segments, Joined, Cleaned, Replicated;
    var name := Normalize(path).value;
    ReplicatedBeginsWithC(name);
    CleanedAgain(Trim(path));
    TrimOfName(name);
    CleanedAgain(Trim(name));
    NothingJoined();
  }

  // ---------------------------------------------------------------- a name that is refused the second time

  const SPACED := "control/devices/ /."

  lemma JoinThree(a: string, b: string, c: string)
    ensures Joined([a, b]) == a + "/" + b && Joined([a, b, c]) == a + "/" + b + "/" + c
  {
    assert [a, b, c][..2] == [a, b] && [a, b][..1] == [a];
    assert Joined([a]) == a;
    assert Joined([a, b]) == Joined([a]) + "/" + b;
    assert Joined([a, b, c]) == Joined([a, b]) + "/" + c;
  }

  /** The canonical name of a path that is given by its parts, once trimmed. */
  lemma NormalizeByParts(path: string, parts: seq<string>, clean: seq<string>)
    requires parts != [] && NoSlashes(parts) && Trim(path) == Joined(parts) && clean == Cleaned(parts)
    requires !HasPrefix(path, "/") && !HasPrefix(Joined(parts), "/")
    ensures Normalize(path) == if Replicated(Joined(clean)) then Some(Joined(clean)) else None
  {
    hide Segments, Joined, Cleaned, Replicated, Trim;
    SegmentsOfJoined(parts);
  }

  lemma SpacedJoined()
    ensures Joined(["control", "devices", " ", "."]) == SPACED && Joined(["control", "devices", " "]) == "control/devices/ "
  {
    JoinThree("control", "devices", " ");
    assert ["control", "devices", " ", "."][..3] == ["control", "devices", " "];
    assert Joined(["control", "devices", " ", "."]) == Joined(["control", "devices", " "]) + "/" + ".";
  }

  lemma SpacedCleaned()
    ensures Cleaned(["control", "devices", " ", "."]) == ["control", "devices", " "]
  {
    var parts := ["control", "devices", " "];
    TidyIsClean(parts);
    assert ["control", "devices", " ", "."][..3] == parts;
    assert Cleaned(["control", "devices", " ", "."]) == Push(Cleaned(parts), ".");
  }

  lemma SpacedIsReplicated()
    ensures Replicated("control/devices/ ")
  {
    assert PREFIXES[4] == "control/devices/";
    assert HasPrefix("control/devices/ ", PREFIXES[4]);
  }

  lemma SpacedIsAccepted()
    ensures Normalize(SPACED) == Some("control/devices/ ")
  {
    hide Replicated, Joined, Cleaned;
    SpacedJoined();
    SpacedCleaned();
    SpacedIsReplicated();
    TrimOfName(SPACED);
    NormalizeByParts(SPACED, ["control", "devices", " ", "."], ["control", "devices", " "]);
  }

  lemma DirectoryParts()
    ensures Joined(["control", "devices", ""]) == "control/devices/" && Joined(["control", "devices"]) == "control/devices"
    ensures Cleaned(["control", "devices", ""]) == ["control", "devices"]
  {
    JoinThree("control", "devices", "");
    assert ["control", "devices", ""][..2] == ["control", "devices"];
    TidyIsClean(["control", "devices"]);
    assert Cleaned(["control", "devices", ""]) == Push(Cleaned(["control", "devices"]), "");
  }

  lemma DirectoryIsNotReplicated(name: string)
    requires name == "control/devices"
    ensures !Replicated(name)
  {
    assert |name| == 15 && name[8] == 'd' && name !in EXACT;
    forall i | 0 <= i < |PREFIXES| && |PREFIXES[i]| < 15
      ensures !HasPrefix(name, PREFIXES[i])
    {
      assert PREFIXES[i] == "control/nodes/" && PREFIXES[i][8] == 'n';
      assert name[..14][8] == 'd';
    }
  }

  lemma TrimSpaced()
    ensures Trim("control/devices/ ") == "control/devices/"
  {
    var name := "control/devices/ ";
    assert TrimLeft(name) == name && name[..16] == "control/devices/";
    assert TrimRight("control/devices/") == "control/devices/";
    assert TrimRight(name) == TrimRight(name[..16]);
  }

  lemma DirectoryIsRefused()
    ensures Normalize("control/devices/ ").None?
  {
    hide Replicated, Joined, Cleaned, Trim;
    DirectoryParts();
    DirectoryIsNotReplicated("control/devices");
    TrimSpaced();
    assert NoSlash("control") && NoSlash("devices") && NoSlash("");
    assert "control/devices/"[0] == 'c' && "control/devices/ "[0] == 'c';
    NormalizeByParts("control/devices/ ", ["control", "devices", ""], ["control", "devices"]);
  }

  /** The name cleans to one below a replicated directory that is nothing but a space, and that one is refused. */
  lemma SpacedIsRefusedAgain()
    ensures Normalize(SPACED) == Some("control/devices/ ") && Normalize("control/devices/ ").None?
  {
    SpacedIsAccepted();
    DirectoryIsRefused();
  }
}
