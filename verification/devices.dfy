/** `is_disk_device` and `get_mount_path`: what the daemon reads out of
    `lsblk -no TYPE <node>` and `lsblk -no MOUNTPOINT <node>`. */
module Devices {
  import opened Text
  import opened Words

  /** Outcome of running `lsblk`: it raised (no `lsblk`
      binary, or a device node that is not a string), or it ran and printed
      `stdout`. A non-zero exit status does not raise; it only shows in
      what was printed. */
  datatype QueryResult = Raised | Output(stdout: string)

  /** `is_disk_device`: the printed device types, split on whitespace,
      include `disk`; an exception counts as "not a disk". */
  predicate IsDiskDevice(query: QueryResult)
    ensures IsDiskDevice(query) ==> query.Output? && |query.stdout| >= 4
  {
    match query
    case Raised => false
    case Output(out) => "disk" in Split(Strip(out))
  }

  /** `get_mount_path`: the printed mount point with surrounding whitespace
      removed. Unlike the type query, nothing catches an exception here. */
  function MountPath(out: string): (r: string)
    ensures |r| <= |out|
    ensures r == [] || (!IsSpace(r[0]) && !IsSpace(r[|r| - 1]))
  {
    Strip(out)
  }

  /** A mount point printed on its own line is returned without the line
      break. */
  lemma MountPathOfLine(p: string)
    requires |p| > 0 && !IsSpace(p[0]) && !IsSpace(p[|p| - 1])
    ensures MountPath(p + "\n") == p
  {
    StripPadded("", p, "\n");
    assert "" + p + "\n" == p + "\n";
  }

  /** For a whole disk `lsblk` prints the disk's own mount point (empty
      when, as usual, only its partition is mounted) and then one line per
      partition: with one mounted partition, its mount point is returned. */
  lemma DiskWithOneMountedPartition(p: string)
    requires |p| > 0 && !IsSpace(p[0]) && !IsSpace(p[|p| - 1])
    ensures MountPath("\n" + p + "\n") == p
  {
    StripPadded("\n", p, "\n");
  }

  /** With two mounted partitions the two mount points are returned joined
      by the line break between them, which names neither directory. */
  lemma DiskWithTwoMountedPartitions(p: string, q: string)
    requires |p| > 0 && !IsSpace(p[0]) && !IsSpace(p[|p| - 1])
    requires |q| > 0 && !IsSpace(q[0]) && !IsSpace(q[|q| - 1])
    ensures MountPath("\n" + p + "\n" + q + "\n") == p + "\n" + q
    ensures MountPath("\n" + p + "\n" + q + "\n")[|p|] == '\n'
  {
    var core := p + "\n" + q;
    assert core[0] == p[0] && core[|core| - 1] == q[|q| - 1];
    StripPadded("\n", core, "\n");
    assert "\n" + core + "\n" == "\n" + p + "\n" + q + "\n";
  }

  /** A device that is not mounted prints only whitespace, and the mount
      path is then empty. */
  lemma UnmountedDeviceHasEmptyPath(out: string)
    requires forall k :: 0 <= k < |out| ==> IsSpace(out[k])
    ensures MountPath(out) == ""
  {
    var b := StripBounds(out);
    assert b.0 == b.1;
  }

  /** An occurrence in the trimmed middle `s[a..e]` is one in `s`. */
  lemma InnerWordIsOuterWord(s: string, w: string, a: nat, e: nat, i: int)
    requires a <= e <= |s|
    requires forall k :: 0 <= k < a ==> IsSpace(s[k])
    requires forall k :: e <= k < |s| ==> IsSpace(s[k])
    requires WordAt(s[a..e], w, i)
    ensures WordAt(s, w, i + a)
  {
    var t := s[a..e];
    var inner, outer := t[i..i + |w|], s[i + a..i + a + |w|];
    forall k | 0 <= k < |w| ensures inner[k] == outer[k] {
      assert t[i + k] == s[a + i + k];
    }
    assert inner == outer;
    if i > 0 {
      assert s[i + a - 1] == t[i - 1];
    }
    if i + |w| < |t| {
      assert s[i + a + |w|] == t[i + |w|];
    }
  }

  /** An occurrence of a whitespace-free word in `s` lies inside the
      trimmed middle `s[a..e]`. */
  lemma OuterWordIsInnerWord(s: string, w: string, a: nat, e: nat, i: int)
    requires a <= e <= |s|
    requires forall k :: 0 <= k < a ==> IsSpace(s[k])
    requires forall k :: e <= k < |s| ==> IsSpace(s[k])
    requires IsWord(w)
    requires WordAt(s, w, i)
    ensures WordAt(s[a..e], w, i - a)
  {
    var t := s[a..e];
    assert s[i] == w[0] by {
      assert s[i..i + |w|][0] == s[i];
    }
    assert s[i + |w| - 1] == w[|w| - 1] by {
      assert s[i..i + |w|][|w| - 1] == s[i + |w| - 1];
    }
    assert a <= i;
    assert i + |w| <= e;
    var inner, outer := t[i - a..i - a + |w|], s[i..i + |w|];
    forall k | 0 <= k < |w| ensures inner[k] == outer[k] {
      assert t[i - a + k] == s[i + k];
    }
    assert inner == outer;
    if i - a > 0 {
      assert t[i - a - 1] == s[i - 1];
    }
    if i + |w| < e {
      assert t[i - a + |w|] == s[i + |w|];
    }
  }

  /** Removing surrounding whitespace neither creates nor destroys a
      whitespace-delimited occurrence of a word. */
  lemma StripKeepsWords(s: string, w: string)
    requires IsWord(w)
    ensures (exists i :: WordAt(Strip(s), w, i)) <==> (exists i :: WordAt(s, w, i))
  {
    var (a, e) := StripBounds(s);
    assert Strip(s) == s[a..e];
    forall i | WordAt(s[a..e], w, i) ensures WordAt(s, w, i + a) {
      InnerWordIsOuterWord(s, w, a, e, i);
    }
    forall i | WordAt(s, w, i) ensures WordAt(s[a..e], w, i - a) {
      OuterWordIsInnerWord(s, w, a, e, i);
    }
  }

  /** The reference meaning of the disk test: `lsblk` printed the word
      `disk` with whitespace or the ends of the output on both sides. */
  lemma DiskIffDelimitedWord(query: QueryResult)
    ensures IsDiskDevice(query) <==> query.Output? && exists i :: WordAt(query.stdout, "disk", i)
  {
    if query.Output? {
      assert IsWord("disk");
      SplitMembership(Strip(query.stdout), "disk");
      StripKeepsWords(query.stdout, "disk");
    }
  }

  /** A whole disk lists its own type first, then those of its
      partitions: whatever follows, such output names a disk. */
  lemma WholeDiskOutput(rest: string)
    ensures IsDiskDevice(Output("disk\n" + rest))
  {
    var out := "disk\n" + rest;
    DiskIffDelimitedWord(Output(out));
    assert out[0..4] == "disk";
    assert IsSpace(out[4]);
    assert WordAt(out, "disk", 0);
  }

  /** A node whose output is a single type name, as a partition's is, is a
      disk exactly when that name is `disk`. */
  lemma SingleTypeOutput(t: string)
    requires IsWord(t)
    ensures IsDiskDevice(Output(t + "\n")) <==> t == "disk"
  {
    var out := t + "\n";
    var b := StripBounds(out);
    assert !IsSpace(out[0]) && !IsSpace(out[|t| - 1]) && IsSpace(out[|t|]);
    assert b == (0, |t|);
    assert Strip(out) == t;
    SplitOfWord(t);
  }

}
