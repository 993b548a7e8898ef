# Multipart encoder and server request of an HTTP message library

This project models two parts of a PHP implementation of PSR-7 HTTP
messages, as their PHPUnit tests describe them.

The first part is the **multipart stream**. It turns a list of form
elements into a `multipart/form-data` body as section 4 of RFC 7578 lays
out:
- each element is a name plus contents, with an optional filename and
  optional headers;
- each part opens with `--boundary`, then lists the caller's headers and the
  missing defaults: `Content-Disposition`, then `Content-Length`, then
  `Content-Type`;
- a blank line and the body follow, and `--boundary--` ends the whole body.

The stream is read-only. It knows its size when every part does.

The second part is the **server request**:
- **Normalising `$_FILES`:** PHP's upload arrays become a tree of uploaded
  files. The per-field layout (`name`, `type`, `tmp_name`, `error`, `size`,
  each holding a nested array) is gathered back into one uploaded file per
  leaf.
- **Rebuilding the request URI from the server variables:** scheme, host,
  port, path and query.
- **Immutable attribute and uploaded-file accessors:** `withAttribute`,
  `withoutAttribute`, `getAttribute` and `withUploadedFiles`.

Modules:
- `Wrappers`: `Option` and `Result`.
- `Decimal`: decimal text and PHP's `(int)` cast.
- `Text`: CRLF lines, ASCII case folding, and splitting at a character.
- `MultipartParts`: the encoder as functions.
- `MultipartStreams`: the stream object, as a class whose read position
  changes.
- `MultipartExamples` and `MultipartFiles`: the encoder's documented
  outputs.
- `UploadedFiles`: the normaliser.
- `ServerUri`: URI reconstruction.
- `ServerRequests`: the request value and its accessors.

## Model

| member | source | states |
|---|---|---|
| MultipartParts.ChooseBoundary | tests/MultipartStreamTest.php:9-19 | the boundary is never empty, and a non-empty boundary the caller supplies is used unchanged |
| MultipartStreams.MultipartStream.Create | tests/MultipartStreamTest.php:9-19 | building the stream fails with the encoder's error, or yields a fresh stream at position 0 whose boundary is the chosen one, whose body is the encoding of the elements, and whose size is known exactly when every part's size is |
| MultipartStreams.MultipartStream.constructor | tests/MultipartStreamTest.php:9-19 | a new stream holds the given boundary, body and size and starts at position 0 |
| MultipartStreams.MultipartStream.GetBoundary | tests/MultipartStreamTest.php:9-19 | the reported boundary is non-empty and is the one the stream was built with |
| MultipartStreams.MultipartStream.IsWritable | tests/MultipartStreamTest.php:21-25 | the stream is never writable |
| MultipartStreams.MultipartStream.Write | tests/MultipartStreamTest.php:21-25 | writing always fails with a not-writable error |
| MultipartStreams.EmptyStream | tests/MultipartStreamTest.php:27-33 | with no elements the boundary is the generated one, the contents are `--boundary--` plus CRLF, and the size is the boundary's length plus 6 |
| MultipartParts.EncodeEmpty | tests/MultipartStreamTest.php:27-33 | encoding no elements yields only the closing delimiter, whose length is the boundary's plus 6 |
| MultipartStreams.MultipartStream.GetSize | tests/MultipartStreamTest.php:27-33 | a reported size equals the length of the body |
| MultipartStreams.MultipartStream.GetContents | tests/MultipartStreamTest.php:27-33 | returns the rest of the body from the current position and leaves the stream at its end |
| MultipartStreams.MultipartStream.Read | tests/MultipartStreamTest.php:27-33 | returns the next `min(n, remaining)` characters of the body and advances the position by that many |
| MultipartStreams.MultipartStream.Eof | tests/MultipartStreamTest.php:27-33 | end of stream holds exactly when the position has reached the body's length |
| MultipartStreams.MultipartStream.Tell | tests/MultipartStreamTest.php:27-33 | reports the current read position |
| MultipartStreams.MultipartStream.Rewind | tests/MultipartStreamTest.php:27-33 | moves the position back to 0 and keeps the stream valid |
| MultipartStreams.MultipartStream.ToString | tests/MultipartStreamTest.php:129-156 | the string form is the whole body, whatever the position was, and leaves the stream at its end |
| MultipartParts.RenderElement | tests/MultipartStreamTest.php:38-67 | an element fails exactly when it lacks contents or a name, and then names the missing key (contents first); otherwise its part opens with the delimiter line and ends with CRLF |
| MultipartParts.EncodePartsFails | tests/MultipartStreamTest.php:38-49 | encoding fails exactly when some element is incomplete, and then with the missing key of the first incomplete element |
| MultipartStreams.RejectsIncompleteElements | tests/MultipartStreamTest.php:38-49 | an element with neither key is rejected for `contents`; one with contents but no name is rejected for `name` |
| MultipartParts.JoinPartsFails | tests/MultipartStreamTest.php:38-49 | joining rendered parts fails exactly when some element fails, and then with the first failure's error |
| MultipartParts.JoinPartsPrefixFails | tests/MultipartStreamTest.php:38-49 | once a prefix of the elements fails, adding more elements does not change the result |
| MultipartParts.JoinPartsAppend | tests/MultipartStreamTest.php:51-67 | the parts of two successful lists, joined, are the parts of their concatenation |
| MultipartParts.EncodePartsAppend | tests/MultipartStreamTest.php:51-67 | the encoded parts of concatenated element lists are the concatenation of their encoded parts |
| MultipartParts.EncodePartsSingle | tests/MultipartStreamTest.php:51-67 | the parts of a single element are that element's rendered part |
| MultipartParts.EncodeFraming | tests/MultipartStreamTest.php:51-67 | every successful body starts with `--boundary` and ends with the closing delimiter |
| MultipartParts.PartsOpenWithDelimiter | tests/MultipartStreamTest.php:51-67 | the parts of a non-empty, successful element list start with `--boundary` |
| MultipartStreams.ComposeParts | tests/MultipartStreamTest.php:51-67 | the loop that appends each part yields exactly the encoded parts, and reports a size, equal to their length, exactly when every part's size is known |
| MultipartStreams.ComposeStep | tests/MultipartStreamTest.php:51-67 | appending one element's part extends the encoding of the prefix, or a failing element fails the whole list |
| MultipartStreams.SizesKnownStep | tests/MultipartStreamTest.php:51-67 | every size in a one-longer prefix is known exactly when every size in the prefix is known and so is the new element's |
| MultipartParts.Size | tests/MultipartStreamTest.php:51-95 | a known size equals the length of the part's body, and the size is unknown only for a stream that cannot tell |
| MultipartParts.DefaultHeadersOrder | tests/MultipartStreamTest.php:158-241 | default headers come in the order disposition, length, type, and none duplicates a caller header |
| MultipartParts.DefaultHeadersPresence | tests/MultipartStreamTest.php:158-241 | each default is added exactly when the caller gave no header of that name (ignoring case); the length default also needs a known non-zero size, the type default a filename |
| MultipartParts.DefaultHeadersValues | tests/MultipartStreamTest.php:97-156 | the disposition default names the field and filename, the length default parses back to the body's length, and the type default is the filename's media type |
| MultipartParts.LengthDefaultValue | tests/MultipartStreamTest.php:51-67 | a length default, when present, parses back to the body's length |
| MultipartParts.PartHeaders | tests/MultipartStreamTest.php:158-190 | a part's headers are the caller's headers unchanged, followed by the defaults |
| MultipartParts.CallerHeadersFirst | tests/MultipartStreamTest.php:158-190 | the header lines are the caller's lines followed by the default lines |
| MultipartParts.PartAsLines | tests/MultipartStreamTest.php:51-67 | a part reads line by line as delimiter, header lines, blank line, body |
| MultipartParts.FramedAsLines | tests/MultipartStreamTest.php:51-67 | a delimiter, headers, blank line and body are the CRLF-ended lines of those texts |
| MultipartParts.ClosingAsLines | tests/MultipartStreamTest.php:51-67 | the closing delimiter is the single line `--boundary--` |
| MultipartParts.HeaderLinesAsLines | tests/MultipartStreamTest.php:51-67 | header lines are the CRLF-ended `Name: Value` texts |
| MultipartParts.HeaderLinesAppend | tests/MultipartStreamTest.php:158-190 | the lines of two header lists, concatenated, are the lines of their concatenation |
| MultipartParts.Filename | tests/MultipartStreamTest.php:97-156 | a given filename wins; otherwise a filename exists exactly for a stream with a path, and it is the path's last segment |
| MultipartParts.BasenameSplits | tests/MultipartStreamTest.php:97-156 | the last segment has no `/`, ends the path, and follows the path's last `/` |
| MultipartParts.BasenameOf | tests/MultipartStreamTest.php:97-156 | the last segment of `dir/file` is `file` |
| MultipartParts.ExtensionSplits | tests/MultipartStreamTest.php:97-156 | a filename has an extension exactly when it has a dot; the extension has no dot and, after a dot, ends the filename |
| MultipartParts.MimeTypeOfExtension | tests/MultipartStreamTest.php:97-156 | `txt`, `jpg`/`jpeg`, `gif` and `png` map to text/plain, image/jpeg, image/gif and image/png |
| MultipartParts.Body | tests/MultipartStreamTest.php:69-95 | a field's text: a string as it is, an integer in decimal, true as `1` and false as empty; IntPart, TruePart and FalsePart pin the test's three values |
| MultipartParts.Basename | tests/MultipartStreamTest.php:97-156 | the last `/`-segment of a path; BasenameSplits proves it holds no `/` and ends the path, BasenameOf that it is the file after the last `/` |
| MultipartParts.Extension | tests/MultipartStreamTest.php:97-156 | the text after the last `.`; ExtensionSplits proves it is absent exactly when the name has no `.` and otherwise ends the name without a `.` |
| MultipartParts.MimeType | tests/MultipartStreamTest.php:97-156 | the media type guessed from the extension; MimeTypeOfExtension proves `txt`, `jpg`/`jpeg` and `gif` give `text/plain`, `image/jpeg` and `image/gif` |
| MultipartParts.HasHeader | tests/MultipartStreamTest.php:158-241 | some caller header name equals the name ignoring letter case; DispositionName, TypeName, FirstCustomHeaders and SecondCustomHeaders decide it for the tests' names |
| MultipartParts.DefaultHeaders | tests/MultipartStreamTest.php:97-241 | at most three defaults; DefaultHeadersOrder, DefaultHeadersPresence and DefaultHeadersValues state which appear, in what order and with which values |
| MultipartParts.RenderPart | tests/MultipartStreamTest.php:51-241 | one part; PartAsLines proves it is the delimiter line, the header lines, a blank line and the body, and CallerHeadersFirst that caller headers precede the defaults |
| MultipartParts.EncodeParts | tests/MultipartStreamTest.php:51-95 | all parts in order; EncodePartsFails proves it fails exactly when some element is bad, with the first bad element's error, and EncodePartsAppend and EncodePartsSingle that it is part by part |
| MultipartParts.Encode | tests/MultipartStreamTest.php:9-95 | the body; EncodeEmpty proves the empty body is the closing line alone, EncodeFraming and PartsOpenWithDelimiter that a body opens with the delimiter and ends with the closing line |
| MultipartParts.NamesAppend | tests/MultipartStreamTest.php:158-241 | a header name occurs in a concatenation exactly when it occurs in one of the two lists |
| Text.SameIgnoringCasePointwise | tests/MultipartStreamTest.php:192-241 | two header names match ignoring case exactly when they have the same length and agree position by position after lower-casing |
| Text.SplitAtFirstAt | tests/ServerRequestTest.php:274-331 | splitting `a + c + b` at its first `c`, when `a` has no `c`, gives back `a` and `b` |
| Text.IndexOfAt | tests/ServerRequestTest.php:274-331 | the first `c` in `a + c + b` is at `|a|` when `a` has no `c` |
| Text.LinesAppend | tests/MultipartStreamTest.php:51-67 | the lines of two lists, concatenated, are the lines of their concatenation |
| MultipartExamples.ElementLines | tests/MultipartStreamTest.php:51-67 | a complete element renders as its delimiter, caller headers, default headers, blank line and body, line by line |
| MultipartExamples.ScalarDefaults | tests/MultipartStreamTest.php:69-95 | a scalar field without caller headers gets the disposition default, then a length default exactly when its text is non-empty |
| MultipartExamples.ScalarHeaderTexts | tests/MultipartStreamTest.php:69-95 | those defaults read as `Content-Disposition: form-data; name="…"` and, for non-empty text, `Content-Length: <length>` |
| MultipartExamples.FieldRender | tests/MultipartStreamTest.php:51-67 | a scalar field's part is its delimiter, its default header lines, a blank line and its text |
| MultipartExamples.FieldLines | tests/MultipartStreamTest.php:51-67 | a non-empty scalar field renders with a disposition line, a length line carrying its body's length, a blank line and the body |
| MultipartExamples.ConcreteFieldLines | tests/MultipartStreamTest.php:51-67 | the same rendering, with the disposition and length lines given as texts |
| MultipartExamples.EmptyFieldLines | tests/MultipartStreamTest.php:76-79 | a scalar whose text is empty renders with no length line and an empty body |
| MultipartExamples.EncodeTwo | tests/MultipartStreamTest.php:51-67 | the body of two good elements is their two parts then the closing delimiter |
| MultipartExamples.OnePart | tests/MultipartStreamTest.php:97-156 | one element's body is its part's lines followed by the closing line |
| MultipartExamples.TwoParts | tests/MultipartStreamTest.php:51-67 | two elements' body is their parts' lines followed by the closing line |
| MultipartExamples.ThreeParts | tests/MultipartStreamTest.php:69-95 | three elements' body is their parts' lines followed by the closing line |
| MultipartExamples.FinishLines | tests/MultipartStreamTest.php:51-67 | a body is its parts' lines followed by the closing line |
| MultipartExamples.DispositionText | tests/MultipartStreamTest.php:97-156 | the disposition header reads `Content-Disposition: form-data; name="…"`, plus `; filename="…"` when there is a filename |
| MultipartExamples.StreamDefaults | tests/MultipartStreamTest.php:158-241 | a sized stream with a path gets each of the three defaults the caller did not give, in order, with the path's last segment as filename |
| MultipartExamples.ThreeCharPart | tests/MultipartStreamTest.php:54-61 | a three-character text field such as foo=bar or baz=bam renders with `Content-Length: 3` and that text as body |
| MultipartExamples.SerializesFields | tests/MultipartStreamTest.php:51-67 | the two text fields encode to exactly the expected body, for any boundary |
| MultipartExamples.IntPart | tests/MultipartStreamTest.php:72-75 | the integer 1 renders as body `1` with `Content-Length: 1` |
| MultipartExamples.FalsePart | tests/MultipartStreamTest.php:76-79 | false renders as an empty body without a length header |
| MultipartExamples.TruePart | tests/MultipartStreamTest.php:80-83 | true renders as body `1` with `Content-Length: 1` |
| MultipartExamples.SerializesNonStringFields | tests/MultipartStreamTest.php:69-95 | the integer and boolean fields encode to exactly the expected body |
| MultipartExamples.HeaderTextsAppend | tests/MultipartStreamTest.php:158-190 | the header texts of a concatenation are the concatenation of the header texts |
| MultipartFiles.StreamDefaultsAlone | tests/MultipartStreamTest.php:97-156 | a stream file without caller headers gets disposition with filename, then length, then media type |
| MultipartFiles.ThreeDefaultsLines | tests/MultipartStreamTest.php:97-156 | an element whose three defaults are given renders as those three header lines between delimiter and body |
| MultipartFiles.FileLines | tests/MultipartStreamTest.php:97-156 | a file part carries the path's last segment as filename, its size as length, and the media type of that filename |
| MultipartFiles.FileNameOfPath | tests/MultipartStreamTest.php:97-156 | the filename of `dir/stem.ext` is `stem.ext`, and its extension is `ext` |
| MultipartFiles.BarTxtName | tests/MultipartStreamTest.php:97-156 | the file name of `/foo/bar.txt` is `bar.txt` |
| MultipartFiles.BarTxtType | tests/MultipartStreamTest.php:97-156 | the media type of `bar.txt` is `text/plain` |
| MultipartFiles.BazJpgName | tests/MultipartStreamTest.php:97-156 | the file name of `/foo/baz.jpg` is `baz.jpg` |
| MultipartFiles.BazJpgType | tests/MultipartStreamTest.php:97-156 | the media type of `baz.jpg` is `image/jpeg` |
| MultipartFiles.BarGifName | tests/MultipartStreamTest.php:97-156 | the file name of `/foo/bar.gif` is `bar.gif` |
| MultipartFiles.BarGifType | tests/MultipartStreamTest.php:97-156 | the media type of `bar.gif` is `image/gif` |
| MultipartFiles.DispositionName | tests/MultipartStreamTest.php:158-190 | `content-disposition` matches `Content-Disposition` ignoring case, and neither of the other two defaults |
| MultipartFiles.TypeName | tests/MultipartStreamTest.php:192-241 | `cOntenT-Type` matches `Content-Type` ignoring case, and neither of the other two defaults |
| MultipartFiles.FirstCustomHeaders | tests/MultipartStreamTest.php:158-190 | the headers `x-foo` and `content-disposition` name the disposition default and not the length or type defaults |
| MultipartFiles.SecondCustomHeaders | tests/MultipartStreamTest.php:192-241 | the header `cOntenT-Type` names the type default and not the disposition or length defaults |
| MultipartFiles.StreamLines | tests/MultipartStreamTest.php:158-241 | a file part with caller headers lists them first, then exactly the defaults those headers do not already give |
| MultipartFiles.CustomDispositionLines | tests/MultipartStreamTest.php:158-190 | a caller `Content-Disposition` suppresses only the disposition default |
| MultipartFiles.CustomTypeLines | tests/MultipartStreamTest.php:192-241 | a caller `Content-Type`, in any letter case, suppresses only the type default |
| Decimal.ParseIntOfIntToString | tests/ServerRequestTest.php:16-35 | PHP's integer cast reads back every integer written in decimal |
| Decimal.IntToStringInjective | tests/ServerRequestTest.php:16-35 | different integers have different decimal texts |
| Decimal.DigitsValueOfNatToString | tests/ServerRequestTest.php:16-35 | the digits of a natural number read back as that number |
| Decimal.ParseDigits | tests/ServerRequestTest.php:274-331 | the integer cast of a digit string is its value |
| Decimal.ParseNegative | tests/ServerRequestTest.php:16-35 | the integer cast of `-digits` is the negated value |
| Decimal.LeadingDigitsOfDigits | tests/ServerRequestTest.php:16-35 | a digit string is its own leading-digit prefix |
| UploadedFiles.MakeFile | tests/ServerRequestTest.php:16-55 | an uploaded file is built exactly when the source is a path, the status is a defined code and the names are text or null; its fields are then the cast inputs |
| UploadedFiles.LookupFirst | tests/ServerRequestTest.php:148-253 | looking a key up yields the value of its first entry |
| UploadedFiles.LookupAbsent | tests/ServerRequestTest.php:148-253 | looking up an absent key yields null |
| UploadedFiles.NormalizeValue | tests/ServerRequestTest.php:16-272 | one value of the files array; AlreadyConverted proves uploaded files pass through, LeafGroupFile that a `tmp_name` group builds its file, NormalizeFromPointwise that other arrays go entry by entry, RejectsScalar that scalars are refused |
| UploadedFiles.NormalizeFiles | tests/ServerRequestTest.php:16-272 | the whole files array; NormalizeFilesPointwise proves it is entry by entry, NormalizeTwice that it is idempotent without `tmp_name` keys, and SingleFile, MultipleFiles and NestedFiles give the tests' results |
| UploadedFiles.FromSpec | tests/ServerRequestTest.php:148-253 | one upload specification; MakeFile states the leaf case, and GatherSpread and NormalizePosting prove a nested posting gives back the tree of uploaded files |
| UploadedFiles.FromSpecFrom | tests/ServerRequestTest.php:148-253 | the groups synthesized per key of `tmp_name`; FromSpecFromPointwise proves one entry per key, in order, each built from the same key of the other four fields |
| UploadedFiles.GroupLookups | tests/ServerRequestTest.php:16-35 | each of the five keys of an upload group looks up its own value |
| UploadedFiles.NormalizeFromPointwise | tests/ServerRequestTest.php:255-263 | normalising entries succeeds exactly when every value normalises, keeps keys and order, and otherwise fails with the first failing value's error |
| UploadedFiles.NormalizeFilesPointwise | tests/ServerRequestTest.php:255-263 | normalising the files array is entry by entry, keeping keys and order, and fails with the first failing entry's error |
| UploadedFiles.LeafGroup | tests/ServerRequestTest.php:16-35 | an array with a non-null `tmp_name` is treated as one upload specification |
| UploadedFiles.IntCastOfText | tests/ServerRequestTest.php:16-35 | a size or status given as decimal text casts back to its number |
| UploadedFiles.FileFromTexts | tests/ServerRequestTest.php:16-35 | a specification given entirely as text builds the uploaded file with those values |
| UploadedFiles.LeafGroupFile | tests/ServerRequestTest.php:16-35 | a PHP upload group of texts normalises to the uploaded file it describes |
| UploadedFiles.SingleFile | tests/ServerRequestTest.php:16-35 | a single posted file becomes one uploaded file under its field name |
| UploadedFiles.MultipleFiles | tests/ServerRequestTest.php:114-147 | two fields become two uploaded files, the second with an empty path, size 0 and no-file status |
| UploadedFiles.RejectsScalar | tests/ServerRequestTest.php:265-272 | a scalar in place of a specification is rejected as an invalid files specification |
| UploadedFiles.EmbedTree | tests/ServerRequestTest.php:56-113 | a normalised leaf embeds as that uploaded file, and a node as an array of the same length |
| UploadedFiles.EmbedEntries | tests/ServerRequestTest.php:56-113 | embedding keeps every key and the number of entries |
| UploadedFiles.NormalizeEmbedded | tests/ServerRequestTest.php:56-113 | an already normalised tree with no `tmp_name` key normalises to itself |
| UploadedFiles.NormalizeEmbeddedFiles | tests/ServerRequestTest.php:56-113 | already normalised files with no `tmp_name` key normalise to themselves |
| UploadedFiles.NormalizeTwice | tests/ServerRequestTest.php:56-113 | normalising the result of a normalisation again changes nothing, when no key in it is `tmp_name` |
| UploadedFiles.AlreadyConverted | tests/ServerRequestTest.php:56-113 | uploaded files, alone or in an array, pass through unchanged |
| UploadedFiles.TmpNameKeyBreaksIdempotence | tests/ServerRequestTest.php:56-113 | a field keyed `tmp_name` normalises once but fails the second time, so idempotence needs that restriction |
| UploadedFiles.Spread | tests/ServerRequestTest.php:148-210 | PHP's per-field layout of a nested upload is an array whenever the upload tree branches |
| UploadedFiles.SpreadEntries | tests/ServerRequestTest.php:148-210 | the per-field layout keeps every key and the number of entries |
| UploadedFiles.Descriptors | tests/ServerRequestTest.php:211-253 | the expected tree has the posted tree's shape: a leaf for each file and a node for each branch |
| UploadedFiles.FromSpecFromPointwise | tests/ServerRequestTest.php:148-253 | when every key's group builds, gathering yields one entry per key, in order, holding that group's result |
| UploadedFiles.SubSpread | tests/ServerRequestTest.php:148-253 | indexing a field's layout by a key gives the layout of that key's subtree |
| UploadedFiles.GatherOne | tests/ServerRequestTest.php:16-35 | the five fields of one posted file gather into its uploaded file |
| UploadedFiles.GatherMany | tests/ServerRequestTest.php:148-253 | when every key's subtree gathers to its descriptors, the branch gathers to the descriptors of all its entries |
| UploadedFiles.GatherSpread | tests/ServerRequestTest.php:148-253 | for every well-formed nested upload, gathering the five per-field arrays gives back the tree of uploaded files with the upload's shape |
| UploadedFiles.NormalizePosting | tests/ServerRequestTest.php:148-253 | a nested upload as PHP posts it normalises to its tree of uploaded files |
| UploadedFiles.DescriptorsOfTwo | tests/ServerRequestTest.php:211-226 | a two-entry branch describes as a node of the two entries' descriptions |
| UploadedFiles.NormalizeTwo | tests/ServerRequestTest.php:150-171 | a field posting two files under different keys normalises to a node of those two uploaded files |
| UploadedFiles.NestedFiles | tests/ServerRequestTest.php:148-253 | the nested example (`file[0]`, `file[1]`, `nested[other]`, `nested[test][0]`, `nested[test][1]`) normalises to the expected tree |
| ServerUri.Var | tests/ServerRequestTest.php:274-304 | a server variable counts as set only when present and non-empty |
| ServerUri.Scheme | tests/ServerRequestTest.php:307-314 | the scheme is https exactly when `HTTPS` is `on`, and otherwise http |
| ServerUri.HostAndPort | tests/ServerRequestTest.php:307-318 | a host, when found, is non-empty, and none is found exactly when there is no server name and no usable Host header |
| ServerUri.Port | tests/ServerRequestTest.php:323-326 | the port comes from the Host header, else from the server port; it is dropped exactly when it equals the scheme's default |
| ServerUri.Path | tests/ServerRequestTest.php:307-322 | with a request URI, the path holds no `?` and is either the whole request URI or its prefix ending just before the first `?`; without one it is `PHP_SELF`, or `/` |
| ServerUri.Query | tests/ServerRequestTest.php:319-322 | a query, when present, is non-empty, and a set query string is used as it is |
| ServerUri.UriFromGlobals | tests/ServerRequestTest.php:274-331 | the URI from scheme, host, port, path and query; EmptyWithoutHost proves it is absent exactly when no host is found, and OrdinaryUri to DifferentPortUri give the five rows of the data provider |
| ServerUri.GetUriFromGlobals | tests/ServerRequestTest.php:274-331 | the URI text; UriStringNonEmpty and EmptyEnv bound it, and OrdinaryRequest to DifferentPortRequest give the expected texts |
| ServerUri.UriStringNonEmpty | tests/ServerRequestTest.php:327-330 | a rebuilt URI is at least as long as its scheme, `://`, host and path |
| ServerUri.EmptyWithoutHost | tests/ServerRequestTest.php:327-330 | the rebuilt URI text is empty exactly when no host can be found |
| ServerUri.EmptyEnv | tests/ServerRequestTest.php:327-330 | with no server variables the URI is empty |
| ServerUri.PortTexts | tests/ServerRequestTest.php:307-326 | the ports `80`, `443` and `8324` read as those numbers |
| ServerUri.HostFromHeader | tests/ServerRequestTest.php:307-314 | a Host header without a colon is the host, with no port |
| ServerUri.HostHeaderWithPort | tests/ServerRequestTest.php:323-326 | `host:port` in the Host header gives that host, and the port unless it is the scheme's default |
| ServerUri.HostFromServerName | tests/ServerRequestTest.php:315-318 | with no Host header the server name is the host |
| ServerUri.PathBeforeQuery | tests/ServerRequestTest.php:307-310 | a request URI `path?query` gives the path |
| ServerUri.WholePath | tests/ServerRequestTest.php:319-322 | a request URI without `?` is the whole path |
| ServerUri.NoQueryWithoutMark | tests/ServerRequestTest.php:319-322 | with no query string, a request URI without `?` gives no query |
| ServerUri.QueryFromRequestUri | tests/ServerRequestTest.php:307-322 | without a query string, the query is the request URI's part after `?`, if that is non-empty |
| ServerUri.OrdinaryUri | tests/ServerRequestTest.php:307-310 | `HTTPS=1` on port 80 rebuilds an http URI without a port |
| ServerUri.SecureUri | tests/ServerRequestTest.php:311-314 | `HTTPS=on` on port 443 rebuilds an https URI without a port |
| ServerUri.HostMissingUri | tests/ServerRequestTest.php:315-318 | without a Host header the server name supplies the host |
| ServerUri.NoQueryUri | tests/ServerRequestTest.php:319-322 | an empty query string gives a URI without a query |
| ServerUri.NoQueryParts | tests/ServerRequestTest.php:319-322 | an empty query string counts as unset, so a request URI without `?` gives the whole path and no query |
| ServerUri.DifferentPortUri | tests/ServerRequestTest.php:323-326 | server port 8324 is kept in the URI |
| ServerUri.UriTexts | tests/ServerRequestTest.php:307-326 | the texts of the rebuilt URIs are `scheme://host[:port]path[?query]` |
| ServerUri.OrdinaryRequest | tests/ServerRequestTest.php:307-310 | the ordinary request gives `http://host/path?query` |
| ServerUri.SecureRequest | tests/ServerRequestTest.php:311-314 | the secure request gives `https://host/path?query` |
| ServerUri.HostMissingRequest | tests/ServerRequestTest.php:315-318 | the request without a Host header gives `http://name/path?query` |
| ServerUri.NoQueryRequest | tests/ServerRequestTest.php:319-322 | the request without a query gives `http://host/path` |
| ServerUri.DifferentPortRequest | tests/ServerRequestTest.php:323-326 | the request on port 8324 gives `http://host:8324/path?query` |
| ServerRequests.NewRequest | tests/ServerRequestTest.php:430-443 | a new request keeps its method and URI and has no uploaded files and no attributes |
| ServerRequests.WithUploadedFiles | tests/ServerRequestTest.php:430-443 | the copy holds exactly the given files; method, URI and attributes are unchanged |
| ServerRequests.UploadedFilesScenario | tests/ServerRequestTest.php:430-443 | the original request keeps no files, and the copy has the given ones and differs from it when there are any |
| ServerRequests.Find | tests/ServerRequestTest.php:492-518 | an attribute's position is found exactly when the name is present, and it is the first entry with that name |
| ServerRequests.GetAttribute | tests/ServerRequestTest.php:492-518 | an absent name reads as the default; with unique names, the value is the one stored under the name |
| ServerRequests.WithAttribute | tests/ServerRequestTest.php:492-518 | the copy replaces an existing entry in place or appends a new one at the end; other entries and fields are unchanged |
| ServerRequests.WithoutAttribute | tests/ServerRequestTest.php:492-518 | removing an absent name returns the request unchanged; removing a present one deletes exactly its first entry, keeping the others in order |
| ServerRequests.WithKeepsUnique | tests/ServerRequestTest.php:492-518 | setting an attribute keeps names unique |
| ServerRequests.WithoutKeepsUnique | tests/ServerRequestTest.php:492-518 | removing an attribute keeps names unique |
| ServerRequests.GetAfterWith | tests/ServerRequestTest.php:492-518 | an attribute just set reads back as its value |
| ServerRequests.GetOtherAfterWith | tests/ServerRequestTest.php:492-518 | setting one attribute leaves every other attribute's value unchanged |
| ServerRequests.GetAfterWithout | tests/ServerRequestTest.php:492-518 | a removed attribute reads as the default |
| ServerRequests.GetOtherAfterWithout | tests/ServerRequestTest.php:492-518 | removing one attribute leaves every other attribute's value unchanged |
| ServerRequests.WithoutUndoesWith | tests/ServerRequestTest.php:492-518 | adding a new attribute and removing it gives back the original request |
| ServerRequests.WithIdempotent | tests/ServerRequestTest.php:492-518 | setting the same attribute twice is the same as setting it once |
| ServerRequests.AttributeScenario | tests/ServerRequestTest.php:492-518 | the attribute test's sequence: default for a missing name, `name` then `other` listed in order, removing `other` restores the first list, removing `unknown` changes nothing |

## Left out

- Float contents of a multipart element (tests/MultipartStreamTest.php:84-87) are not modelled, because PHP's float-to-string conversion is floating point.
- The stream's lazy assembly from other streams (an append stream over per-part streams) is not modelled. The body is one string, built once, and reading is by position into it.
- Stream metadata lookup (`getMetadata('uri')`) is a parameter: a stream's path is an optional field of its contents, and whether it knows its size is a flag.
- The generated default boundary (PHP's `uniqid`) is a caller-supplied non-empty token, since the clock is not modelled.
- MultipartExamples.FieldLines: the documented expectations are stated for any boundary, name and body rather than for the literal strings alone. SerializesFields and SerializesNonStringFields pin down the literal ones.
- MultipartFiles.FileLines: the file-serialisation expectations are stated over any path, file name and data, not over the literal `/foo/bar.txt`, `/foo/baz.jpg` and `/foo/bar.gif`. FileNameOfPath and MimeTypeOfExtension are instantiated to the literal file names and media types by BarTxtName, BarTxtType, BazJpgName, BazJpgType, BarGifName and BarGifType, and the caller headers of the custom-header tests by FirstCustomHeaders and SecondCustomHeaders.
- The `Uri` class's own parsing and normalisation are not modelled. The rebuilt URI is its components and their text.
- `ServerRequest::fromGlobals` (tests/ServerRequestTest.php:345-428) is not modelled, because it reads PHP's superglobals and the input stream.
- Server params, cookie params, query params and the parsed body (tests/ServerRequestTest.php:445-490) are not modelled. They are plain stored values without logic beyond what `WithUploadedFiles` shows.
- Integers are unbounded. PHP's integer limits and the cast's saturation are not modelled.
- UploadedFiles.NormalizeTwice: idempotence is proved only for trees with no key `tmp_name`. TmpNameKeyBreaksIdempotence shows why that restriction is needed.
- UploadedFiles.Sub: indexing a value that is not an array yields null here. PHP's string offsets are not modelled.
- An attribute name is a string only. PHP's integer array keys for attributes are not modelled.
- ServerRequests.GetAttribute: PHP's null default is the default value the caller passes.
- Exception messages are not modelled. Errors are the datatypes `ElementError`, `WriteError` and `NormalizeError`.
- ServerUri.Scheme: only `HTTPS=on` gives https, as the tests require (`HTTPS=1` rebuilds an http URI). Other accounts of the library that also treat `1` as secure are not followed.
- Host and port rules the tests do not exercise follow the library's documented behaviour: a Host header split at its first colon, then the server name, then the server port. A leading colon in the Host header is treated as no host.
