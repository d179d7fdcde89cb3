/** The part of the filesystem the shredder touches: regular files addressed by
    a directory and a leaf name, each holding a byte string. Anything that is
    not a key of the map (a directory, a missing path) is "not a regular file".
 */
module FileSystem {

  datatype Path = Path(dir: string, name: string)

  type Fs = map<Path, seq<bv8>>

  /** `Path.with_name`: the same directory, a different leaf name. */
  function WithName(p: Path, name: string): Path
  {
    Path(p.dir, name)
  }

  /** The 62 characters the temporary name is drawn from (ASCII letters and digits). */
  predicate IsAlnum(c: char)
  {
    ('a' <= c <= 'z') || ('A' <= c <= 'Z') || ('0' <= c <= '9')
  }

  /** A temporary name: exactly 12 letters or digits. */
  predicate IsTempName(s: string)
  {
    |s| == 12 && forall i :: 0 <= i < |s| ==> IsAlnum(s[i])
  }

  /** Writing `data` at `offset` through a handle opened without truncation:
      bytes before the offset and past the end of the write are kept; a write
      that starts past the end fills the gap with zero bytes. */
  function WriteAt(content: seq<bv8>, offset: nat, data: seq<bv8>): (r: seq<bv8>)
    ensures |r| == if offset + |data| <= |content| then |content| else offset + |data|
  {
    if offset <= |content| then
      content[..offset] + data + (if offset + |data| < |content| then content[offset + |data|..] else [])
    else
      content + seq(offset - |content|, _ => 0x00) + data
  }

  /** The bytes a write leaves: those before the offset are kept, a gap past the
      old end is filled with zeros, the data lands at the offset, and the bytes
      after the written range are kept. */
  lemma WriteAtContents(content: seq<bv8>, offset: nat, data: seq<bv8>)
    ensures forall i :: 0 <= i < offset && i < |content| ==> WriteAt(content, offset, data)[i] == content[i]
    ensures forall i :: |content| <= i < offset ==> WriteAt(content, offset, data)[i] == 0x00
    ensures forall i :: 0 <= i < |data| ==> WriteAt(content, offset, data)[offset + i] == data[i]
    ensures forall i :: offset + |data| <= i < |content| ==> WriteAt(content, offset, data)[i] == content[i]
  {
  }

  /** A write that stays inside the file leaves its length unchanged and
      replaces exactly the written range. */
  lemma WriteInside(content: seq<bv8>, offset: nat, data: seq<bv8>)
    requires offset + |data| <= |content|
    ensures WriteAt(content, offset, data) == content[..offset] + data + content[offset + |data|..]
  {
    var r := WriteAt(content, offset, data);
    var s := content[..offset] + data + content[offset + |data|..];
    WriteAtContents(content, offset, data);
    assert |r| == |s|;
    forall i | 0 <= i < |r|
      ensures r[i] == s[i]
    {
      if offset <= i < offset + |data| {
        assert r[offset + (i - offset)] == data[i - offset];
      }
    }
  }

  /** `os.rename`: the file at `src` moves to `dst`, replacing whatever file was
      there; renaming a path onto itself changes nothing. */
  function Rename(fs: Fs, src: Path, dst: Path): (r: Fs)
    requires src in fs
    ensures dst in r && r[dst] == fs[src]
    ensures src != dst ==> src !in r
    ensures forall q :: q != src && q != dst ==> (q in r <==> q in fs)
    ensures forall q :: q != src && q != dst && q in r ==> r[q] == fs[q]
  {
    (fs - {src})[dst := fs[src]]
  }

  /** `os.remove`. */
  function Remove(fs: Fs, p: Path): (r: Fs)
    ensures p !in r
    ensures forall q :: q != p ==> (q in r <==> q in fs)
    ensures forall q :: q != p && q in r ==> r[q] == fs[q]
  {
    fs - {p}
  }

  /** Renaming a file away and removing it under its new name deletes the
      original path and the target path and nothing else. */
  lemma RenameThenRemove(fs: Fs, src: Path, dst: Path)
    requires src in fs
    ensures Remove(Rename(fs, src, dst), dst) == fs - {src, dst}
    ensures dst !in fs ==> Remove(Rename(fs, src, dst), dst) == fs - {src}
  {
  }
}
