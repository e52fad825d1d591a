/** Bucket, key, host and port read back from the URLs that `src/endpoint/mod.rs` builds. */
module EndpointReading {
  import opened Wire
  import opened Utf8
  import opened TextSplit
  import opened PercentCodec
  import opened Endpoint

  // ----- paths ------------------------------------------------------------------------------

  /**
    Below the base path, a path-style path is the bucket up to the first slash, and the key after it;
    without a key there is no slash.
   */
  lemma {:induction false} PathStyleReads(base: Text, bucket: Text, key: Option<Text>)
    requires ValidBase(base) && ValidBucket(bucket)
    ensures var path := WirePath(base, bucket, key, PathStyle);
            && base <= path
            && var tail := path[|base|..];
            && var first := Split(tail, '/' as int)[0];
            && first <= tail && Decode(first) == Some(bucket)
            && (key.None? ==> tail == first)
            && (key.Some? ==> |first| < |tail| && tail[|first|] == '/' as int
                              && Decode(tail[|first| + 1..]) == Some(key.value))
  {
    hide Encode, Decode, Split;
    var e := Encode(bucket, true);
    EncodedComponent(bucket);
    DecodeInvertsEncode(bucket, true);
    PathStyleTail(base, bucket, key);
    var tail := Tail(bucket, key);
    assert (base + tail)[|base|..] == tail;
    if key.Some? {
      var k := Encode(key.value, false);
      DecodeInvertsEncode(key.value, false);
      SplitCons(e, SLASH, k);
      assert tail == e + [SLASH] + k && tail[|e| + 1..] == k;
    } else {
      SplitPiece(e, SLASH);
    }
  }

  /** Below the base path, a virtual-hosted path is the key; without one the last slash goes, but never the first. */
  lemma {:induction false} VirtualHostedReads(base: Text, bucket: Text, key: Option<Text>)
    requires ValidBase(base)
    ensures var path := WirePath(base, bucket, key, VirtualHosted);
            if key.Some? then base <= path && Decode(path[|base|..]) == Some(key.value)
            else if base == ['/' as int] then path == base
            else path + ['/' as int] == base
  {
    hide Encode, Decode;
    if key.Some? {
      DecodeInvertsEncode(key.value, false);
      assert (base + Encode(key.value, false))[|base|..] == Encode(key.value, false);
    } else {
      assert |base| == 1 ==> base == ['/' as int];
      assert base == base[..|base| - 1] + [base[|base| - 1]];
    }
  }

  // ----- the whole URL ---------------------------------------------------------------------------

  predicate IsNumber(t: Text, n: nat) {
    t != [] && (forall i :: 0 <= i < |t| ==> 48 <= t[i] <= 57) && DecimalValue(t) == n
  }

  /** The endpoint's own authority, or the bucket as a label in front of the host, with the port if there is one. */
  ghost predicate AddressedTo(parsers: Parsers, endpoint: Text, bucket: Text, style: Style, authority: Text) {
    if style == PathStyle then authority == endpoint
    else
      && parsers.authority(endpoint).Some?
      && var parsed := parsers.authority(endpoint).value;
      && var named := bucket + ['.' as int] + parsed.host;
      && named <= authority
      && (parsed.port.None? ==> authority == named)
      && (parsed.port.Some? ==> |authority| > |named| && authority[|named|] == ':' as int
                                && IsNumber(authority[|named| + 1..], parsed.port.value))
  }

  lemma HostSuffixReads(parsed: HostPort, bucket: Text)
    ensures var authority, named := bucket + HostSuffix(parsed), bucket + ['.' as int] + parsed.host;
            && named <= authority
            && (parsed.port.None? ==> authority == named)
            && (parsed.port.Some? ==> |authority| > |named| && authority[|named|] == ':' as int
                                      && IsNumber(authority[|named| + 1..], parsed.port.value))
  {
    hide Decimal, DecimalValue;
    var authority, named := bucket + HostSuffix(parsed), bucket + ['.' as int] + parsed.host;
    if parsed.port.Some? {
      var digits := Decimal(parsed.port.value);
      DecimalIsRead(parsed.port.value);
      assert authority == named + ([COLON] + digits);
      PrefixReads(named, COLON, digits);
    } else {
      assert authority == named;
    }
  }

  lemma PrefixReads(named: Text, sep: Byte, rest: Text)
    ensures var t := named + ([sep] + rest);
            named <= t && |t| > |named| && t[|named|] == sep && t[|named| + 1..] == rest
  {
  }

  /** A URL that is built has the given scheme, that authority and the wire path, and parses as a whole. */
  lemma {:induction false} ObjectUrlReads(parsers: Parsers, scheme: Text, endpoint: Text, base: Text, bucket: Text,
                                          key: Option<Text>, style: Style)
    requires ValidBase(base) && ObjectUrlOf(parsers, scheme, endpoint, base, bucket, key, style).Ok?
    ensures var url := ObjectUrlOf(parsers, scheme, endpoint, base, bucket, key, style).value;
            && url.scheme == scheme && url.pathAndQuery == WirePath(base, bucket, key, style)
            && AddressedTo(parsers, endpoint, bucket, style, url.authority)
            && parsers.uriOk(url.scheme + Ascii("://") + url.authority + url.pathAndQuery)
  {
    hide WirePath, ValidBucket, ValidVirtualHostBucket, HostSuffix, IsNumber;
    assert Ascii("://") == [COLON, SLASH, SLASH];
    if style == VirtualHosted {
      HostSuffixReads(parsers.authority(endpoint).value, bucket);
    }
  }

  /** Which buckets are refused for which style. */
  lemma BucketRules(isIp: Text -> bool, bucket: Text)
    ensures ValidBucket(bucket) <==>
            && 1 <= |bucket| <= 255
            && forall i :: 0 <= i < |bucket| ==> bucket[i] >= 32 && bucket[i] !in [47, 92, 127]
    ensures ValidVirtualHostBucket(isIp, bucket) <==>
            && 3 <= |bucket| <= 63 && !isIp(bucket)
            && (forall i :: 0 <= i < |bucket| ==>
                  97 <= bucket[i] <= 122 || 48 <= bucket[i] <= 57 || bucket[i] in [45, 46])
            && bucket[0] !in [45, 46] && bucket[|bucket| - 1] !in [45, 46]
            && forall i :: 0 < i < |bucket| ==> !(bucket[i - 1] == 46 && bucket[i] == 46)
  {
  }

  /** The refusals of `object_url`, in order. */
  lemma ObjectUrlRefusals(parsers: Parsers, scheme: Text, endpoint: Text, base: Text, bucket: Text,
                          key: Option<Text>, style: Style)
    requires ValidBase(base)
    ensures var r := ObjectUrlOf(parsers, scheme, endpoint, base, bucket, key, style);
            var virtual := style == VirtualHosted && ValidBucket(bucket);
            var labelled := virtual && ValidVirtualHostBucket(parsers.isIp, bucket);
            && (r == Err(InvalidBucket) <==> !ValidBucket(bucket))
            && (r == Err(InvalidVirtualHostBucket) <==> virtual && !ValidVirtualHostBucket(parsers.isIp, bucket))
            && (r == Err(InvalidAuthority) <==> labelled && parsers.authority(endpoint).None?)
            && (r == Err(IpEndpoint) <==> labelled && parsers.authority(endpoint).Some?
                                          && parsers.isIp(TrimBrackets(parsers.authority(endpoint).value.host)))
            && r != Err(InvalidQuery)
  {
    hide WirePath, ValidBucket, ValidVirtualHostBucket, HostSuffix, TrimBrackets;
  }

  /** Trimming takes brackets off both ends, and only those. */
  lemma {:induction false} TrimExactly(t: Text) returns (left: Text, right: Text)
    ensures t == left + TrimBrackets(t) + right
    ensures AllBrackets(left) && AllBrackets(right)
    ensures var inner := TrimBrackets(t);
            inner != [] ==> !IsBracket(inner[0]) && !IsBracket(inner[|inner| - 1])
    decreases |t|
  {
    TrimStep(t);
    hide TrimBrackets, AllBrackets, IsBracket;
    NoBrackets();
    if t != [] && IsBracket(t[0]) {
      var l, r := TrimExactly(t[1..]);
      left, right := [t[0]] + l, r;
      MoreBrackets(l, t[0]);
      assert t == [t[0]] + t[1..] == [t[0]] + (l + TrimBrackets(t) + r);
    } else if t != [] && IsBracket(t[|t| - 1]) {
      var l, r := TrimExactly(t[..|t| - 1]);
      left, right := l, r + [t[|t| - 1]];
      MoreBrackets(r, t[|t| - 1]);
      assert t == t[..|t| - 1] + [t[|t| - 1]] == l + TrimBrackets(t) + r + [t[|t| - 1]];
    } else {
      left, right := [], [];
    }
  }

  lemma TrimStep(t: Text)
    ensures TrimBrackets(t) ==
            if t != [] && IsBracket(t[0]) then TrimBrackets(t[1..])
            else if t != [] && IsBracket(t[|t| - 1]) then TrimBrackets(t[..|t| - 1])
            else t
  {
  }

  lemma NoBrackets()
    ensures AllBrackets([])
  {
  }

  lemma MoreBrackets(t: Text, b: Byte)
    requires AllBrackets(t) && IsBracket(b)
    ensures AllBrackets([b] + t) && AllBrackets(t + [b])
  {
  }

  predicate AllBrackets(t: Text) {
    forall i :: 0 <= i < |t| ==> t[i] == '[' as int || t[i] == ']' as int
  }

  // ----- queries -----------------------------------------------------------------------------------

  /** The path ends at the first question mark. */
  lemma {:induction false} PathOfExactly(t: Text)
    ensures '?' as int !in PathOf(t)
    ensures t == PathOf(t) || PathOf(t) + ['?' as int] <= t
  {
    if t != [] && t[0] != QUESTION {
      PathOfExactly(t[1..]);
      assert t == [t[0]] + t[1..];
    }
  }

  /** The query that was given is the query that is sent; an empty one leaves no question mark. */
  lemma {:induction false} QueryReads(parsers: Parsers, url: Url, query: Text)
    ensures WithQuery(parsers, url, query) == Err(InvalidQuery) <==> Ascii("?") <= query || '#' as int in query
    ensures var r := WithQuery(parsers, url, query);
            r.Ok? ==> && r.value.pathAndQuery == PathOf(url.pathAndQuery)
                                                 + (if query == [] then [] else ['?' as int] + query)
                      && parsers.uriOk(url.scheme + Ascii("://") + url.authority + r.value.pathAndQuery)
  {
    assert Ascii("://") == [COLON, SLASH, SLASH] && Ascii("?") == [QUESTION];
    var path := PathOf(url.pathAndQuery);
    hide PathOf;
    assert path + [] == path && path + [QUESTION] + query == path + ([QUESTION] + query);
  }

  /** An authority is replaced exactly when it parses, has a host and no user information, and the URL parses. */
  lemma AuthorityRules(parsers: Parsers, url: Url, authority: Text)
    ensures WithAuthority(parsers, url, authority) == Ok(url.(authority := authority)) <==>
            && parsers.authority(authority).Some? && parsers.authority(authority).value.host != []
            && '@' as int !in authority
            && parsers.uriOk(url.scheme + Ascii("://") + authority + url.pathAndQuery)
  {
    assert Ascii("://") == [COLON, SLASH, SLASH];
  }
}
