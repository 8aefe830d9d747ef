/**
 * S9sRpcClientPrivate: the shared state behind an RPC client handle. The
 * model keeps the reference counter, the receive buffer (storage, capacity
 * and used length), the session cookies and the last Server header; the
 * socket, TLS and request fields are not part of it.
 *
 * m_buffer is an array whose length is m_bufferSize; a NULL m_buffer is the
 * empty array, which is what it is exactly when the capacity is zero.
 */
module RpcClient {
  import opened Text
  import opened Variants
  import opened Framing
  import opened Cookies

  /**
   * memmove(a, a + from, count): the `count` bytes at `from` move to the
   * front; the bytes from `count` on keep their values.
   */
  method ShiftDown(a: array<char>, from: nat, count: nat)
    requires from + count <= a.Length
    modifies a
    ensures a[..count] == old(a[from..from + count])
    ensures a[count..] == old(a[count..])
  {
    var k := 0;
    while k < count
      invariant 0 <= k <= count
      invariant a[..k] == old(a[from..from + k])
      invariant a[k..] == old(a[k..])
    {
      a[k] := a[from + k];
      k := k + 1;
    }
  }

  class RpcClientPrivate {
    var referenceCounter: int
    var buffer: array<char>
    var bufferSize: nat
    var dataSize: nat
    var cookies: map<string, Variant>
    var serverHeader: string

    /** The capacity is the allocation's size and the used bytes fit in it. */
    predicate Valid()
      reads this
    {
      bufferSize == buffer.Length && dataSize <= bufferSize
    }

    /** m_buffer != NULL. */
    predicate HasBuffer()
      reads this
    {
      bufferSize > 0
    }

    /** The used bytes of the buffer. */
    function Data(): (d: string)
      reads this, buffer
      requires Valid()
      ensures |d| == dataSize
    {
      buffer[..dataSize]
    }

    /** A new client is referenced once and holds no buffer, cookies or Server header. */
    constructor ()
      ensures Valid() && !HasBuffer()
      ensures referenceCounter == 1 && dataSize == 0
      ensures cookies == map[] && serverHeader == ""
    {
      referenceCounter := 1;
      buffer := new char[0];
      bufferSize := 0;
      dataSize := 0;
      cookies := map[];
      serverHeader := "";
    }

    /** ref(): one more reference. */
    method Ref()
      modifies this`referenceCounter
      ensures referenceCounter == old(referenceCounter) + 1
    {
      referenceCounter := referenceCounter + 1;
    }

    /** unRef(): one reference fewer; returns how many remain. */
    method UnRef() returns (remaining: int)
      modifies this`referenceCounter
      ensures referenceCounter == old(referenceCounter) - 1
      ensures remaining == referenceCounter
    {
      referenceCounter := referenceCounter - 1;
      remaining := referenceCounter;
    }

    /**
     * ensureHasBuffer(size): grows the allocation to `size` bytes when it is
     * smaller, keeping every stored byte (malloc when there is none, realloc
     * otherwise); never shrinks it.
     */
    method EnsureHasBuffer(size: nat)
      requires Valid()
      modifies this`buffer, this`bufferSize
      ensures Valid()
      ensures bufferSize == if size <= old(bufferSize) then old(bufferSize) else size
      ensures buffer[..old(bufferSize)] == old(buffer[..])
      ensures Data() == old(Data())
      ensures buffer == old(buffer) || fresh(buffer)
    {
      if size <= bufferSize {
        return;
      }
      var grown := new char[size];
      var i := 0;
      while i < bufferSize
        invariant buffer == old(buffer) && bufferSize == old(bufferSize)
        invariant grown.Length == size && bufferSize < size && bufferSize == buffer.Length
        invariant 0 <= i <= bufferSize
        invariant grown[..i] == buffer[..i]
      {
        grown[i] := buffer[i];
        i := i + 1;
      }
      assert grown[..bufferSize] == buffer[..];
      buffer := grown;
      bufferSize := size;
    }

    /** clearBuffer(): releases the allocation; no capacity and no data remain. */
    method ClearBuffer()
      modifies this`buffer, this`bufferSize, this`dataSize
      ensures Valid() && !HasBuffer()
      ensures dataSize == 0 && Data() == []
      ensures fresh(buffer)
    {
      buffer := new char[0];
      bufferSize := 0;
      dataSize := 0;
    }

    /**
     * setBuffer(content, additionalSize): a fresh allocation of
     * |content| + additionalSize + 1 bytes whose data is `content`; with
     * additionalSize >= 0 a byte past the data is always allocated. A value
     * below -1 would make the copy overrun the allocation.
     */
    method SetBuffer(content: string, additionalSize: int)
      requires additionalSize >= -1
      modifies this`buffer, this`bufferSize, this`dataSize
      ensures Valid()
      ensures bufferSize == |content| + additionalSize + 1
      ensures Data() == content
      ensures additionalSize >= 0 ==> dataSize < bufferSize
    {
      ClearBuffer();
      EnsureHasBuffer(|content| + additionalSize + 1);
      var i := 0;
      while i < |content|
        invariant fresh(buffer)
        invariant 0 <= i <= |content|
        invariant Valid() && bufferSize == |content| + additionalSize + 1
        invariant buffer[..i] == content[..i]
      {
        buffer[i] := content[i];
        i := i + 1;
      }
      dataSize := |content|;
      assert buffer[..dataSize] == content;
    }

    /**
     * hasCompleteJSon(): whether the data holds a blank line or a record
     * separator anywhere, with memchr given its arguments in order; the code
     * as written is Framing.HasCompleteJSonAsWritten. A leading separator
     * counts, so data that is a separator and the start of a record is
     * reported complete although getCompleteJSon would read that record to
     * the end of the data (Framing.LeadingSeparatorAlone).
     */
    function HasCompleteJSon(): (r: bool)
      reads this, buffer
      requires Valid()
      ensures !HasBuffer() ==> !r
      ensures r <==> HasCompleteRecord(Data())
      ensures r <==> |CompleteRecord(Data())| < dataSize
      ensures dataSize > 0 && buffer[0] == RS ==> r
    {
      TerminatorIffShortRecord(Data());
      HasBuffer() && (FindBlankLine(Data()).Some? || RS in Data())
    }

    /**
     * getCompleteJSon(): copies bytes from the start of the data, skipping a
     * separator at index 0 and stopping at the next separator or at the
     * second newline of a blank line.
     */
    method GetCompleteJSon() returns (retval: string)
      requires Valid()
      ensures retval == CompleteRecord(Data())
    {
      ghost var d := Data();
      ghost var s := Lead(d);
      ghost var t := d[s..];
      retval := "";
      var previousChar := '\0';
      var idx := 0;
      while idx < dataSize
        invariant idx <= dataSize
        invariant idx == 0 ==> retval == []
        invariant idx > 0 ==> s <= idx && retval == t[..idx - s]
        invariant forall j :: 0 <= j < |retval| ==> !EndsRecordAt(t, j)
        invariant previousChar == if retval == [] then '\0' else retval[|retval| - 1]
      {
        var c := buffer[idx];
        assert idx >= s ==> c == t[idx - s];
        if idx == 0 && c == RS {
          idx := idx + 1;
          continue;
        }
        if c == RS {
          assert EndsRecordAt(t, |retval|);
          break;
        }
        if c == '\n' && previousChar == '\n' {
          assert EndsRecordAt(t, |retval|);
          break;
        }
        retval := retval + [c];
        previousChar := c;
        idx := idx + 1;
      }
    }

    /**
     * skipRecord(): drops the first record together with its blank line and
     * one separator right after it, moving the rest of the data to the
     * front; the bytes past the new data keep their old values. Without a
     * blank line nothing changes. The separator is looked for only inside
     * the data; the code as written is Framing.SkipRecordAsWritten.
     */
    method SkipRecord() returns (skipped: bool)
      requires Valid()
      modifies buffer, this`dataSize
      ensures Valid()
      ensures skipped <==> SkipFirstRecord(old(Data())).Some?
      ensures !skipped ==> dataSize == old(dataSize) && buffer[..] == old(buffer[..])
      ensures skipped ==> Data() == SkipFirstRecord(old(Data())).value
      ensures buffer[dataSize..] == old(buffer[..])[dataSize..]
    {
      var found := FindBlankLine(buffer[..dataSize]);
      if found.None? {
        return false;
      }
      var next := found.value + 2;
      if next < dataSize && buffer[next] == RS {
        next := next + 1;
      }
      assert SkipFirstRecord(buffer[..dataSize]) == Some(buffer[next..dataSize]);
      var remaining := dataSize - next;
      if remaining == 0 {
        dataSize := 0;
        return true;
      }
      ShiftDown(buffer, next, remaining);
      dataSize := remaining;
      return true;
    }

    /**
     * parseHeaders(): with a buffer of at least 12 used bytes, upserts every
     * Set-Cookie match of the data into the cookies and records the first
     * Server header when there is one; otherwise nothing changes.
     */
    method ParseHeaders()
      requires Valid()
      modifies this`cookies, this`serverHeader
      ensures !HasBuffer() || dataSize < 12 ==> cookies == old(cookies) && serverHeader == old(serverHeader)
      ensures HasBuffer() && dataSize >= 12 ==> cookies == Upsert(old(cookies), CookieMatches(Data(), 0))
      ensures HasBuffer() && dataSize >= 12 && FindServer(Data(), 0).Some? ==>
        serverHeader == FindServer(Data(), 0).value
      ensures HasBuffer() && dataSize >= 12 && FindServer(Data(), 0).None? ==>
        serverHeader == old(serverHeader)
    {
      if bufferSize == 0 || dataSize < 12 {
        return;
      }
      var text := buffer[..dataSize];
      var lastIdx := 0;
      ghost var target := Upsert(cookies, CookieMatches(text, 0));
      while lastIdx < |text| && FindCookie(text, lastIdx).Some?
        invariant serverHeader == old(serverHeader)
        invariant Upsert(cookies, CookieMatches(text, lastIdx)) == target
        decreases |text| - lastIdx
      {
        var m := FindCookie(text, lastIdx).value;
        HarvestStep(text, lastIdx, cookies);
        cookies := cookies[m.name := String(m.value)];
        lastIdx := m.start + 1;
      }
      assert CookieMatches(text, lastIdx) == [];
      var server := FindServer(text, 0);
      if server.Some? {
        serverHeader := server.value;
      }
      assert Data() == text;
    }

    /** cookieHeaders(): the Cookie request header for the current cookies. */
    method CookieHeaders() returns (header: string)
      ensures header == CookieHeader(cookies)
    {
      if |cookies| == 0 {
        return "";
      }
      header := "Cookie: ";
      var remaining := cookies.Keys;
      ghost var done: seq<string> := [];
      while remaining != {}
        invariant remaining <= cookies.Keys
        invariant forall i :: 0 <= i < |done| ==> done[i] in cookies
        invariant done + SortedKeys(remaining) == SortedKeys(cookies.Keys)
        invariant header == "Cookie: " + JoinPairs(cookies, done)
        decreases |remaining|
      {
        LeastExists(remaining);
        var k :| k in remaining && IsLeast(k, remaining);
        CookieHeaderStep(cookies, done, k, header);
        SortedKeysTake(done, remaining, k);
        if header != "Cookie: " {
          header := header + "; ";
        }
        header := header + CookiePair(k, cookies[k]);
        done := done + [k];
        remaining := remaining - {k};
      }
      assert done == SortedKeys(cookies.Keys);
      header := header + "\r\n";
    }

    /** serverVersionString(): the Server header recorded by parseHeaders. */
    function ServerVersionString(): (r: string)
      reads this
      ensures r == serverHeader
    {
      serverHeader
    }
  }
}
