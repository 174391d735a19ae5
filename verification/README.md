# A verified model of the graphics receive path

This project models what the client does with the graphics it receives, from the static
virtual channel up to the pixels of its surfaces, and proves properties of that model. The
server never sends a region twice, so a wrong pixel stays wrong; each layer has to be exact
over whole connections, not just for one message.

The layers, from the wire to the picture:

- **Channels** (`VChannel`, `Dvc`, `DvcDelivery`, `Router`): chunks of the static channel
  (section 2.2.6.1.1 of MS-RDPBCGR), fragments of dynamic channels (section 2.2.3 of
  MS-RDPEDYC), the text of their names (`Utf8`) and the queue between them and the session.
- **Bulk decompression** (`ZgfxTable`, `Zgfx`, `ZgfxRoundTrip`, `ZgfxMessages`,
  `ZgfxDecoder`): prefix code, overlapping matches and the ring that stands for an unbounded
  history (section 3.1.9.1.2 of MS-RDPEGFX).
- **The connection** (`Connection`, `EndToEnd`): all of these composed, from a sender's PDUs
  to the client's state, and from its coefficients and colours to the client's pixels.
- **PDUs** (`Gfx`, module `GfxParser`): splitting a message into PDUs and parsing them.
- **The surface state machine** (`GfxMachine`, `GfxState`): what each PDU does to surfaces,
  caches, decoder states and counters. It takes the two codecs as functions; `GfxCodecs` says
  what the client's own are. Over runs: the invariant and the messages (`GfxRuns`), surfaces
  and cache slots that do not interfere (`GfxIsolation`), what the two loss counters tell
  (`GfxAccounts`), and an ideal client without edges (`GfxIdeal`).
- **Surfaces** (`Pixels`, `Canvas`, `Paints`, `Surface`, `Screen`): clipped fills, copies,
  pictures and snapshots.
- **RemoteFX Progressive** (section 2.2.4.2 of MS-RDPEGFX, section 3.1.8.1.7.3 of
  MS-RDPRFX): entropy codes (`Bits`, `AdaptiveRun`, `Rlgr`, `Srl`), bit planes (`Refinement`,
  `BitPlanes`, `BandLayout`, `Tiles`), both wavelets (`Blocks`, `Wavelet`, `Extrapolate`),
  tiles sent as differences (`Differences`), tile states and regions (`TileBlocks`, `Regions`,
  `RegionPaints`), and the imperative decoders over them. A sender of first tiles, differences
  and upgrades, from coefficients to bytes (`PlaneSender`, `TileSender`, `RegionBytes`,
  `RegionSender`, `StreamSender`), is followed to the surface in `GfxProgressive`; what happens
  to its tiles at the surface's edges is in `GfxOverhang`.
- **ClearCodec** (section 2.2.4.1 of MS-RDPEGFX; `VBars`, `VBarLockstep`, `ClearLayers`,
  `ClearCodec`, `ClearDecoder`) and **NSCodec** (section 3.1.8.1 of MS-RDPNSC; `NsCodec`,
  `NsImage`, `NsDecoder`). Whole connections of a sender with glyphs and restarts are in
  `ClearRun`, and on surfaces in `GfxClear`.

Every component has the same shape. A specification module says in functions on values what
bytes mean and how state moves. Ghost senders, written from the cited sections because the
client has no encoders, are proved to be inverted by it. The decoder modules (`RlgrDecoder`,
`UpgradeDecoder`, `WaveletDecoder`, `ExtrapolateDecoder`, `PlaneDecoder`,
`ProgressiveDecoder`, `ZgfxDecoder`, `NsDecoder`, `ClearDecoder`, and the classes in
`Surface`, `Screen`, `GfxState`, `VChannel`, `Dvc` and `Router`) are the client's loops,
arrays, cursors and objects, proved equal to the specification. Integer widths are explicit:
i16 wrapping is `Wrap16`, and where 32-bit arithmetic does not wrap that is a lemma.

A file is named after its module, except that `BitReader` holds module `BitReading`, `Blocks`
also `Matrices`, `Surface` `Surfaces`, `Screen` `Screens` and `SurfaceManagers`, `Tiles`
`Quants` and `Planes`, `Gfx` also `GfxParser`, `GfxState` `GfxStates`, and `ClearRun`
`ClearRuns`.

Some places where the code and its comments or a reader's expectation differ; the model
follows the code.

- A recalled V-Bar slot that was never stored is painted black, although the comment above it
  speaks of the background colour (client/src/clearcodec.rs:255-275; `VBars.BarOr`).
- A difference tile replaces the stored sign plane by the delta's signs
  (client/src/progressive.rs:1014-1060), so from then on upgrades refine the difference and what
  lies under it stays as it was. Exactness is therefore stated from the last tile that is no
  difference (`Planes.TileIsExact`) and, over a difference, for the difference
  (`Differences.DifferenceIsExact`).
- The status that refuses a dynamic channel is -2147024896, which is 0x80070000 and not the
  code its comment names (client/src/dvc.rs:118-132).
- In the extrapolating wavelet the last of two surplus low samples is halved together with the
  output before it, so different tiles can have the same picture (`Extrapolate.PictureIsLossy`);
  `Extrapolate.PicturesAreEqual` says exactly when two have in which nothing saturates.
- The pixel counter is described as the measure of what was lost (client/src/gfxstate.rs:131-144),
  but the pixels clipped from Progressive tiles never reach it: they only count as a dropped
  update (client/src/gfxstate.rs:298-308 and 346-349, client/src/progressive.rs:1353-1366;
  `GfxOverhang.PixelCounterMissesTiles` and, for all that a sender draws,
  `GfxOverhang.ClippedTilesAreUpdates`). So the theorem for the pixel counter speaks of what
  passes through `check`, and the one for everything, `GfxAccounts.UnchangedMeansAllApplied`, of
  the update counter.
- A comment in client/src/session.rs:475-478 gives the decompressor a history of 64 KB; the
  ring has 2,500,000 bytes.

## Model

| member | source | states |
|---|---|---|
| AdaptiveRun.RunRoundTrip | client/src/progressive.rs:259-274 | The receiver recovers the length of every adaptive run of zeros and stops exactly behind its code, whatever `kp` is; with `Kp` in 0..80 throughout. |
| Rlgr.GolombRiceRoundTrip | client/src/progressive.rs:240-353 | A Golomb-Rice code of section 3.1.8.1.7.3 of MS-RDPRFX is read back exactly and adapts `krp` as the sender does. |
| Rlgr.CodeFits | client/src/progressive.rs:250-353 | On data whose length travels in 16 bits no run length and no Golomb-Rice code reaches 2^32, so the unsigned 32-bit arithmetic of the decoder never overflows. |
| Rlgr.PaddingIsZero | client/src/progressive.rs:250-353 | Zero bits behind the last code decode to zero coefficients only, in both modes. |
| Rlgr.DecodeEncode | client/src/progressive.rs:250-353 | For every coefficient sequence, adaptation state and amount of zero padding: decoding its encoding and filling up with zeros gives the sequence back. |
| Rlgr.RoundTrip | client/src/progressive.rs:190-353 | RLGR1 round trip: every block of i16 coefficients, encoded, packed into whole bytes and decoded, is the same block. |
| RlgrDecoder.ReadRunSymbol | client/src/progressive.rs:259-302 | One code word in run mode, read with in-place cursors: a run, a sign and a magnitude, with `kp` and `krp` adapted as the specification function says. |
| RlgrDecoder.ReadGolombSymbol | client/src/progressive.rs:314-344 | One code word in Golomb-Rice mode, its sign folded into the low bit and its zero branch raising `kp`. |
| RlgrDecoder.Rlgr1Decode | client/src/progressive.rs:250-353 | The decoding loop writes exactly the coefficients of the stream to the front of the buffer and leaves the rest as it was; each turn shortens the unread input. |
| BitReading.BitReader.ReadBits | client/src/progressive.rs:219-225 | Reads n bits most significant first, zeros standing in behind the end. |
| BitReading.BitReader.ConsumeRun | client/src/progressive.rs:230-237 | Consumes and counts exactly the bits equal to the target at the front. |
| Bits.StreamOfPack | client/src/progressive.rs:190-225 | Packed bits are read back as themselves, followed only by the padding of the last byte. |
| Bits.GetPut | client/src/progressive.rs:213-225 | A number written in n bits is the number read back. |
| Srl.ReadStep | client/src/progressive.rs:823-866 | One SRL read returns the next coefficient sent and leaves the reader ready for the others: owed zeros, run headers, sign and capped magnitude. |
| Srl.RoundTrip | client/src/progressive.rs:798-866 | For every sequence of values with abs(value) < 2^numBits and numBits in 1..15, successive reads over all subbands return the same values, with any padding or with trailing zeros omitted. |
| UpgradeDecoder.UpgradeState.SrlRead | client/src/progressive.rs:823-866 | The stateful reader (cursor, owed zeros, `kp`, value-next flag) takes exactly the step of the SRL specification. |
| UpgradeDecoder.UpgradeState.ReadMagnitude | client/src/progressive.rs:823-866 | The unary magnitude: counts zero bits up to a one and never past the maximum. |
| UpgradeDecoder.UpgradeState.UpgradeBlock | client/src/progressive.rs:872-897 | Refines a subband in place: each slot gets the input the two streams hold for it, all other coefficients and signs stay. |
| UpgradeDecoder.IdleBlock | client/src/progressive.rs:872-897 | A subband without new bits consumes nothing and changes nothing. |
| UpgradeDecoder.UpgradeComponent | client/src/progressive.rs:902-928 | A pass over all ten subbands equals the component-level specification, the two streams shared in order. |
| Refinement.UpgradeRoundTrip | client/src/progressive.rs:872-928 | Every slot of a pass receives exactly the refinement that was sent for it, SRL and raw bits interleaved. |
| BitPlanes.InputIsSendable | client/src/progressive.rs:823-897 | Whatever bytes the two streams hold, what a slot reads is a refinement within its bit count. |
| BitPlanes.RefineExact | client/src/progressive.rs:872-897 | Refining an exact coefficient by input keeps it exact at the lower bit position; the magnitude becomes the old bits followed by the new ones. |
| BitPlanes.PassIsExact | client/src/progressive.rs:902-928 | A legal pass keeps every coefficient exact modulo 2^16 and appends its bits to the magnitude outside LL3. |
| BitPlanes.RunIsExact | client/src/progressive.rs:1144-1181 | Over any run of legal passes every coefficient stays sign x magnitude x 2^(position - 1) modulo 2^16. |
| BitPlanes.BitsTelescope | client/src/progressive.rs:151-161 | The bits that a run adds are the initial less the final bit position. |
| BitPlanes.SenderPassShows | client/src/progressive.rs:872-928 | After a sender's pass the component shows the sender's coefficients truncated at the new bit positions. |
| BitPlanes.RefinementIsLossless | client/src/progressive.rs:872-928 | After any plan of passes the component shows the sender's coefficients at its bit positions, and exactly those coefficients where the position has reached one. |
| BandLayout.BandOf | client/src/progressive.rs:764-792 | Every coefficient lies in exactly one subband of the layout. |
| Planes.DifferencesRoundTrip | client/src/progressive.rs:356-360 | Adding up wrapped differences gives back any LL3 band. |
| Planes.FirstPassIsExact | client/src/progressive.rs:680-723 | The first pass puts every coefficient at its bit position with its sign, in both layouts; LL3 after differential decoding needs no sign. |
| Planes.UpgradeIsPass | client/src/progressive.rs:1144-1181 | An upgrade whose positions fall by at most 15 is exactly one refinement pass over the component. |
| Planes.TileIsExact | client/src/progressive.rs:680-723 | After one block that is no difference and any run of upgrades in its layout every coefficient is, modulo 2^16, sign x Q x 2^(position - 1), Q being the first-pass magnitude followed by all later bits. |
| Planes.FirstBlockShows | client/src/progressive.rs:680-723 | A sender's first block, RLGR coded, decoded and dequantized, shows its coefficients at the chosen bit positions. |
| Planes.SenderLosesNothing | client/src/progressive.rs:872-928 | From the entropy-coded first block through any plan of upgrades, a coefficient whose bit position has reached one is exactly the sender's. |
| Planes.DifferencesAccumulate | client/src/progressive.rs:945-951 | A run of difference tiles leaves on each coefficient the wrapping sum of the baseline and all deltas. |
| Differences.UpgradedOver | client/src/progressive.rs:1144-1181 | An upgrade of a tile that was sent as a difference refines the difference alone; what lies under it stays. |
| Differences.DifferenceIsExact | client/src/progressive.rs:1014-1060 | After a difference tile and any run of upgrades every coefficient is the one stored before plus, modulo 2^16, sign x Q x 2^(position - 1), Q being the magnitude that the difference's first pass and all later bits spell. |
| PlaneDecoder.DifferentialDecode | client/src/progressive.rs:356-360 | The in-place loop adds up the LL3 band and leaves what is before it. |
| PlaneDecoder.Dequant | client/src/progressive.rs:362-373 | The in-place shift of one subband wraps to 16 bits and leaves all other subbands; a shift outside 0..30 is refused and changes nothing. |
| PlaneDecoder.AccumulateDiff | client/src/progressive.rs:945-951 | Both buffers end up holding the wrapping sum. |
| PlaneDecoder.DecodeComponentCoeffs | client/src/progressive.rs:680-723 | Entropy decoding, sign capture, differential decoding and dequantization in place give the first-pass plane of the specification, in both layouts. |
| PlaneDecoder.UpgradePlane | client/src/progressive.rs:1144-1181 | An upgrade computed in place on copies is the specified upgrade of the plane. |
| Wavelet.LineRecovered | client/src/progressive.rs:380-458 | Forward lifting of a rebuilt line returns both bands whenever no intermediate leaves the i16 range. |
| Wavelet.BlockRecovered | client/src/progressive.rs:380-458 | The forward two-dimensional transform of a rebuilt block recovers all four subbands exactly under that condition. |
| Wavelet.InverseInjective | client/src/progressive.rs:380-458 | Where nothing leaves the range, equal blocks come from equal subbands. |
| Wavelet.PictureInjective | client/src/progressive.rs:463-468 | All ten subbands can be read off the picture of three levels. |
| WaveletDecoder.HorizontalPass | client/src/progressive.rs:391-431 | The rolling horizontal pass equals the closed-form lifting of every row: LL with HL into the low half, LH with HH into the high half. |
| WaveletDecoder.SynthesizeColumn | client/src/progressive.rs:434-457 | The rolling pass down a column, three cells in hand, stores the closed-form lifting of that column and touches no other. |
| WaveletDecoder.VerticalPass | client/src/progressive.rs:433-457 | Every column of the block is the lifting of its two halves; nothing outside the block changes. |
| WaveletDecoder.IdwtBlock | client/src/progressive.rs:380-458 | One level in place: the four subbands at `base` are replaced by the two-dimensional inverse, all else unchanged. |
| WaveletDecoder.Idwt3Level | client/src/progressive.rs:463-468 | The three in-place levels leave the 64 by 64 picture of the ten subbands. |
| Extrapolate.LineRecovered | client/src/progressive.rs:479-548 | Every high sample, and every low sample behind an even output, can be recovered from an extrapolated line where nothing is clamped. |
| Extrapolate.LastLowIsShared | client/src/progressive.rs:533-542 | Replacing the last of two surplus low samples leaves the line the same if and only if its sums with the output before it are equal, differ by one with the larger magnitude odd, or are one and minus one; the clamp plays no part. |
| Extrapolate.LinesAreEqual | client/src/progressive.rs:479-548 | Where nothing saturates, two lines are equal if and only if their high samples and their low samples but the shared one are equal, and the shared one is in that relation. |
| Extrapolate.LastLowIsLossy | client/src/progressive.rs:533-542 | At the finest level, 33 low and 31 high samples, a last low sample of one or minus one beside zeros gives the line of all zeros. |
| Extrapolate.InverseDetermines | client/src/progressive.rs:644-664 | Where nothing saturates, equal blocks of a level come from the same HH and from the same other subbands up to the surplus low row and column; with at most one low sample more than high ones, from the same four subbands. |
| Extrapolate.InverseIsEqual | client/src/progressive.rs:644-664 | Where nothing saturates, the blocks of two levels are equal if and only if the levels agree in that sense row by row and, for the surplus row, column by column. |
| Extrapolate.CoarseLevelsInjective | client/src/progressive.rs:669-674 | The two coarse levels are injective: all seven of their subbands can be told from the LL block they produce. |
| Extrapolate.PicturesAreEqual | client/src/progressive.rs:669-674 | Two pictures in which nothing saturates are equal if and only if their finest levels agree in everything a block can tell. |
| Extrapolate.PictureIsLossy | client/src/progressive.rs:669-674 | Two different sets of ten subbands, none of which saturates anywhere, with the same picture. |
| Extrapolate.LevelsNest | client/src/progressive.rs:644-674 | Each level's (L+H)^2 result exactly replaces its subbands, ends at cell 4096 and is the next level's LL block. |
| ExtrapolateDecoder.IdwtRow | client/src/progressive.rs:490-546 | The rolling pass over a row reads exactly its low and high samples and writes exactly low + high cells of the closed form. |
| ExtrapolateDecoder.IdwtX | client/src/progressive.rs:479-548 | The horizontal half-pass joins every row of the two bands and leaves the rows before it. |
| ExtrapolateDecoder.IdwtColumn | client/src/progressive.rs:566-620 | One column, low over high half, written in place; only its cells change. |
| ExtrapolateDecoder.IdwtY | client/src/progressive.rs:554-622 | Every column of the result is the closed form of its halves; nothing outside the block changes. |
| ExtrapolateDecoder.IdwtLevel | client/src/progressive.rs:644-664 | A level with 1 <= high <= low <= high + 2 replaces its four subbands by the inverse transform and leaves the finer levels' bands. |
| ExtrapolateDecoder.Idwt3LevelExtrapolate | client/src/progressive.rs:669-674 | The three levels leave the 64 by 64 picture of the ten subbands of the extrapolating layout. |
| PlaneDecoder.InverseTransform | client/src/progressive.rs:1061-1083 | The samples of a component come from a transformed copy, in the layout the region names. |
| PlaneDecoder.YCbCrPixels | client/src/progressive.rs:735-755 | Every output pixel is the fixed-point conversion of the three samples at its index. |
| PlaneDecoder.RenderTile | client/src/progressive.rs:1061-1083 | The pixel buffer of a tile state is its rendering: inverse transform of each component and colour conversion. |
| TileBlocks.TileIsAtomic | client/src/progressive.rs:954-1085 | A tile block changes at most its own (surface, x, y) entry, and nothing if it fails; the picture it pushes is that of the entry it leaves. |
| TileBlocks.UpgradeIsAtomic | client/src/progressive.rs:1095-1200 | An upgrade block is all or nothing over three components and touches only its own entry. |
| TileBlocks.UpgradeNeverRaises | client/src/progressive.rs:1103-1181 | An upgrade that is applied raises no bit position of any subband of any component. |
| TileBlocks.UpgradeIsTaken | client/src/progressive.rs:151-161 | A well-formed upgrade of a stored tile is taken if and only if in all three components no band's position rises and none ends at zero; otherwise nothing changes. |
| Regions.BlockIsAtomic | client/src/progressive.rs:1323-1357 | Every block kind keeps the map well formed and changes at most its own entry. |
| Regions.LastPictureIsState | client/src/progressive.rs:1323-1357 | However often a cell is decoded in a region, also if later blocks for it fail, the last picture pushed for it shows what is stored for it in the end. |
| Regions.DrawInRectsShows | client/src/progressive.rs:1223-1274 | Clipped to any list of rectangles, a pixel takes the tile's colour if and only if its cell and some rectangle cover it. |
| Regions.CompositeShows | client/src/progressive.rs:1223-1274 | After compositing all pending tiles a declared pixel has the colour of the last tile over it; every other pixel is unchanged. |
| Regions.RectOrderIsIrrelevant | client/src/progressive.rs:1223-1274 | The picture does not depend on the order or repetition of the rectangles. |
| Regions.LostInRectIs | client/src/progressive.rs:1223-1274 | No pixel of a tile is counted as dropped if and only if all its declared pixels lie on the surface. |
| Regions.PictureIsState | client/src/progressive.rs:1276-1372 | At the end of a region every declared pixel in the cell of a tile that pushed a picture equals the rendering of that tile's current stored state; all other pixels are as before. |
| RegionPaints.TilesDeclare | client/src/progressive.rs:1223-1274 | Over any pending tiles and rectangles no pixel is clipped if and only if every declared pixel of every tile is on the surface. |
| RegionPaints.TilesLoseNothing | client/src/progressive.rs:1353-1366 | The client's two counts of rejected tiles and dropped pixels are both zero if and only if every tile's corner and every declared pixel of every tile is on the surface. |
| RegionPaints.StreamIsItsUpdate | client/src/progressive.rs:1447-1484 | A bitstream is an update that does not depend on the surface, tile states and pictures, followed by painting these pictures clipped; it succeeds if and only if every block decodes and nothing is clipped or rejected. |
| GfxCodecs.ClientIsLawful | client/src/progressive.rs:1447-1484 | The client's Progressive decoder touches only the tile states of the surface it draws on and depends on no others. |
| PlaneSender.UpgradeShows | client/src/progressive.rs:1144-1181 | The two streams of a sender's pass, packed into bytes with any padding, are taken by the client and take the component to the new bit positions. |
| TileSender.TileBack | client/src/progressive.rs:954-1000 | Every tile block that its length fields can express is read back from its bytes, with and without quality byte. |
| TileSender.UpgradeBack | client/src/progressive.rs:1103-1143 | Every upgrade block is read back from its bytes, its six streams cut where they were joined. |
| RegionBytes.RegionBack | client/src/progressive.rs:1283-1322 | Every region is read back from its bytes: rectangles, nibble tables, quality levels, layout flag and tile data. |
| RegionSender.CommandBack | client/src/progressive.rs:1323-1357 | The block of a sender that mirrors the client's tiles, be it a first tile, a difference or an upgrade, leads the client to exactly the tile state the sender computes. |
| RegionSender.TilesInStep | client/src/progressive.rs:1323-1357 | A tile stream with any mix of first tiles, differences and upgrades decodes without failure, and afterwards the client has every tile the sender believes it has. |
| RegionSender.RegionShows | client/src/progressive.rs:1276-1372 | After a sender's region every declared pixel of a tile it sends shows the picture of the coefficients sent last, cut off at the bit positions reached, added modulo 2^16 to what a difference was laid over; every other pixel is as before. |
| StreamSender.StreamInStep | client/src/progressive.rs:1447-1484 | The same over a whole bitstream of regions with other blocks between them, sender and client staying in step. |
| StreamSender.FinalCoefficientsAreExact | client/src/progressive.rs:1061-1083 | Once all bit positions of a tile are one, its coefficients are exactly those sent last added to what lies under them; the sender's own for a tile sent afresh. |
| Regions.StreamIsLocal | client/src/progressive.rs:1447-1484 | What a stream does to a surface depends on that surface's own tile states only, and no other surface's states change. |
| Regions.StreamIgnoresCanvas | client/src/progressive.rs:1447-1484 | What is stored does not depend on what the surface shows. |
| ProgressiveDecoder.ParseRegion | client/src/progressive.rs:1283-1322 | The parser with its cursor reads exactly the region of the specification: rectangles, quantization tables, quality levels, tile data, or fails. |
| ProgressiveDecoder.CutStreams | client/src/progressive.rs:1103-1143 | The six streams of an upgrade are consecutive slices that use up the rest of the block. |
| ProgressiveDecoder.ProgressiveContext.Store | client/src/progressive.rs:1061-1083 | Stores the state under its key and queues its rendering. |
| ProgressiveDecoder.ProgressiveContext.DecodeTileBlock | client/src/progressive.rs:954-1085 | `decode_tile` on the map and the queue: replace or add, with every error leaving both as they were. |
| ProgressiveDecoder.ProgressiveContext.DecodeUpgradeBlock | client/src/progressive.rs:1095-1200 | `decode_tile_upgrade`: the plan of all components is settled before any state changes. |
| ProgressiveDecoder.CompositeRect | client/src/progressive.rs:1223-1274 | One tile in one rectangle: the surface shows the clipped part and the count of lost pixels is exact. |
| ProgressiveDecoder.CompositeRegionRects | client/src/progressive.rs:1223-1274 | The nested loops composite as specified and count rejected tiles and dropped pixels exactly. |
| ProgressiveDecoder.ProgressiveContext.DecodeRegionBlock | client/src/progressive.rs:1276-1372 | One region on map and surface equals the specification, one bad tile not stopping the others. |
| ProgressiveDecoder.ProgressiveContext.DecompressAt | client/src/progressive.rs:1447-1484 | A whole bitstream equals the fold of its regions; a bad region does not stop the next, a bad block length ends it. |
| ProgressiveDecoder.ProgressiveContext.ResetSurface | client/src/progressive.rs:1420-1422 | Forgets exactly the tile states of one surface. |
| ZgfxTable.PrefixFree | client/src/zgfx.rs:27-68 | No code of the 40 rows is a prefix of another one, and none occurs twice. |
| ZgfxTable.DistancesTile | client/src/zgfx.rs:27-68 | The match rows tile the distances: every distance below their end is spelled by exactly one row. |
| ZgfxTable.LookupAlongCode | client/src/zgfx.rs:127-136 | Reading a row's code bit by bit finds no row before its end and that row at its end. |
| ZgfxDecoder.LoadByte | client/src/zgfx.rs:101-115 | Loading one byte into the accumulator extends the number read, zero standing in behind the last byte. |
| ZgfxDecoder.AccumulatorFits | client/src/zgfx.rs:101-115 | With at most 31 bits in hand the accumulator stays below 2^31. |
| ZgfxDecoder.BitReader.GetBits | client/src/zgfx.rs:101-115 | The accumulator reader refines most-significant-first bit reading for counts up to 24, without 32-bit overflow. |
| ZgfxDecoder.BitReader.ByteAlign | client/src/zgfx.rs:120-124 | Alignment moves to the next whole byte of the bit view and counts the skipped bits. |
| ZgfxDecoder.DecodeToken | client/src/zgfx.rs:127-136 | The growing-prefix loop finds the token the specification finds, or none. |
| ZgfxDecoder.DecodeLengthField | client/src/zgfx.rs:143-157 | The match length code, its unary part bounded as in the client. |
| ZgfxRoundTrip.LengthRoundTrip | client/src/zgfx.rs:143-157 | Every length from 3 to 65535 is read back. |
| Zgfx.CopyIsPeriodic | client/src/zgfx.rs:180-198 | A copy appends bytes with S[i] = S[i - distance], also when it overlaps its own output. |
| ZgfxDecoder.ZgfxContext.WriteByte | client/src/zgfx.rs:174-178 | Appends to the history; the ring still holds its last 2,500,000 bytes and `index` its length. |
| ZgfxDecoder.ZgfxContext.CopyFrom | client/src/zgfx.rs:180-198 | A match is refused exactly when the distance is zero, beyond the ring or beyond all that was written; otherwise the history grows by the periodic copy. |
| ZgfxRoundTrip.TokenRoundTrip | client/src/zgfx.rs:200-245 | Decoding any literal, legal match or raw run goes on exactly behind its code with its meaning appended. |
| ZgfxRoundTrip.BodyRoundTrip | client/src/zgfx.rs:200-245 | Any list of legal tokens with up to seven padding bits decodes to its meaning and ends at the bit limit. |
| ZgfxRoundTrip.SegmentRoundTrip | client/src/zgfx.rs:200-245 | The packed segment with its trailer byte decodes to the LZ77 meaning of the tokens, for every history. |
| ZgfxDecoder.ZgfxContext.DecompressBody | client/src/zgfx.rs:200-245 | The token loop refines the specification of a compressed body, with the unread bits as its measure. |
| ZgfxDecoder.ZgfxContext.DecompressSegment | client/src/zgfx.rs:200-245 | A segment's output is what it appended to the history; the history keeps what was decoded before an error. |
| ZgfxMessages.MultipartIsItsSegments | client/src/zgfx.rs:250-278 | A multipart message decodes as its segments in sequence; what follows them is ignored. |
| ZgfxMessages.MessageRoundTrip | client/src/zgfx.rs:250-278 | Every single or multipart message of legal tokens decodes to its meaning. |
| ZgfxMessages.RunRoundTrip | client/src/zgfx.rs:163-278 | Over a whole connection, with matches reaching back across segments and messages, the client's history is the sender's. |
| Zgfx.MessageExtends | client/src/zgfx.rs:250-278 | Decompression only ever appends to the history, also when it fails. |
| ZgfxDecoder.ZgfxContext.Decompress | client/src/zgfx.rs:250-278 | One message on the ring equals the specification on the unbounded history. |
| NsCodec.RleRoundTrip | client/src/nscodec.rs:51-110 | Every plane of at least four bytes is recovered from its run-length code, whatever follows. |
| NsCodec.PlaneRoundTrip | client/src/nscodec.rs:114-127 | Every plane is recovered, coded or raw. |
| NsDecoder.NextUnit | client/src/nscodec.rs:60-97 | The next literal or run, with the rule that five outstanding bytes are never a run. |
| NsDecoder.RleDecode | client/src/nscodec.rs:51-110 | The loop equals the specification, ends by the input it has not read although a long run may have length zero, and always leaves exactly the four tail bytes outstanding. |
| NsDecoder.DecodePlaneBytes | client/src/nscodec.rs:114-127 | Empty, raw and coded planes, with the error of a coded plane that overruns. |
| NsImage.IndexesInRange | client/src/nscodec.rs:20-42 | Once the planes are decoded, every luma and chroma index is inside its plane and below 2^32, with and without subsampling. |
| NsImage.ChromaKept | client/src/nscodec.rs:166-188 | A chroma sample survives the shift exactly when its dropped high bits only repeat the sign. |
| NsDecoder.RastersAreEqual | client/src/nscodec.rs:132-197 | Two images in which no colour is clamped, subsampled or not and with any colour loss levels, have the same raster if and only if all their pixels have the same luma and chroma. |
| NsImage.BitmapRoundTrip | client/src/nscodec.rs:132-197 | Every bitmap of planes is recovered from its message, subsampled or not, whichever planes are coded. |
| NsDecoder.RasterShows | client/src/nscodec.rs:149-195 | The pixel (x, y) is at index y * width + x. |
| NsDecoder.Render | client/src/nscodec.rs:149-195 | The pixel loop produces the whole raster. |
| NsDecoder.Decompress | client/src/nscodec.rs:132-197 | Fails exactly when the planes cannot be decoded, and otherwise gives the raster of the image. |
| ClearLayers.RunLengthBack | client/src/clearcodec.rs:79-89 | Every 32-bit run length is read back from its one, three or seven bytes. |
| ClearLayers.BitsNeeded | client/src/clearcodec.rs:91-97 | The least number of bits that hold the number, but at least one. |
| ClearLayers.ResidualRoundTrip | client/src/clearcodec.rs:339-355 | Every tile can be sent as residual, whatever the tile held before. |
| ClearLayers.SuiteBack | client/src/clearcodec.rs:401-458 | A palette suite is read back exactly. |
| ClearLayers.RlexRoundTrip | client/src/clearcodec.rs:401-458 | Suites over a palette decode to the pixels they stand for, cut to the rectangle's size. |
| ClearLayers.RectShows | client/src/clearcodec.rs:357-398 | Each cell of a rectangle that a pixel is left for takes it; all other cells of the tile stay. |
| ClearLayers.SubrectsFrom | client/src/clearcodec.rs:357-398 | A list of raw, NSCodec and RLEX rectangles decodes to these rectangles painted one after another. |
| ClearDecoder.ReadRun | client/src/clearcodec.rs:79-89 | The cursor reader of run lengths. |
| ClearDecoder.DecodeResidualLayer | client/src/clearcodec.rs:339-355 | The residual loop fills the tile in place as specified, and fails exactly when the specification does. |
| ClearDecoder.DecodeRlexInto | client/src/clearcodec.rs:401-458 | The RLEX loops paint the expanded suites into the rectangle. |
| ClearDecoder.DecodeSubcodecLayer | client/src/clearcodec.rs:357-398 | The rectangle loop over the three sub-codecs, in place. |
| VBars.ColumnShows | client/src/clearcodec.rs:300-329 | Exactly the column's cells inside the tile take the column's colours. |
| VBarLockstep.StoreAgrees | client/src/clearcodec.rs:223-329 | Storing a bar at the cursor keeps ring and cursor in agreement with the log of stores and resets: the cursor is the number of stores since the last reset modulo the ring size, each slot holds the latest bar written to it. |
| VBarLockstep.ColumnInStep | client/src/clearcodec.rs:240-322 | A full hit, a short hit or a miss gives exactly the column the sender means and moves both caches on in step. |
| VBarLockstep.WantedShows | client/src/clearcodec.rs:300-329 | After a band each of its cells inside the tile has the colour the sender means; no other cell changed. |
| VBarLockstep.BandsInStep | client/src/clearcodec.rs:223-329 | A whole bands layer paints the sender's bands and leaves the caches in step. |
| VBarLockstep.RunInStep | client/src/clearcodec.rs:223-329 | For every run of band messages with any mix of hits, misses and resets, every message paints exactly the intended tile. |
| ClearDecoder.ClearCodecContext.DecodeColumn | client/src/clearcodec.rs:240-322 | The branches on ring slots and cursors equal the specified column; an error leaves the caches alone. |
| ClearDecoder.ClearCodecContext.DecodeBands | client/src/clearcodec.rs:223-329 | The loops over bands and columns equal the specification on tile and caches, also when they fail half-way. |
| ClearCodec.DrawRoundTrip | client/src/clearcodec.rs:137-221 | A message in sequence draws exactly the tile the sender composed (residual, bands, rectangles), stores it as the glyph it names and leaves the caches in step. |
| ClearRuns.MessageInStep | client/src/clearcodec.rs:137-221 | A message of a sender that mirrors columns and glyphs, composed or a glyph hit, with or without restart, draws what it stands for and leaves both sides in step. |
| ClearRuns.RunRoundTrip | client/src/clearcodec.rs:137-221 | Over any run of such messages, however often rings and sequence numbers wrap, the client draws exactly the pictures the sender means. |
| ClearRuns.ConnectionRoundTrip | client/src/clearcodec.rs:124-221 | A new client draws exactly what a sender means from its first message on, whichever number that carries. |
| ClearRuns.RoundAgain | client/src/clearcodec.rs:144-155 | A sender's number is the awaited one again only after every 256th message. |
| ClearRuns.LossIsNoticed | client/src/clearcodec.rs:144-155 | When the first messages of a run do not arrive, the client draws none of the next ones and keeps its state, until 256 messages have gone by. |
| ClearDecoder.ClearCodecContext.Accept | client/src/clearcodec.rs:144-160 | Sequence check and cursor reset in place. |
| ClearDecoder.ClearCodecContext.Compose | client/src/clearcodec.rs:188-221 | The three layers on a new tile, kept as a glyph if an index was given. |
| ClearDecoder.HeldWhole | client/src/clearcodec.rs:463-476 | A buffer with a pixel for every cell is drawn whole, and its pixels are counted as the visible area. |
| ClearDecoder.BlitBgrBuffer | client/src/clearcodec.rs:463-476 | Draws the pixels the buffer has, clipped to the surface, leaves the others alone, counts exactly and reports a short buffer if and only if one is missing. |
| ClearDecoder.ClearCodecContext.Decompress | client/src/clearcodec.rs:137-221 | One message on the stored state and the surface: state, drawing and failure are those of the specification, and a failure draws nothing. |
| Canvas.VisibleIsArea | client/src/surface.rs:117-201 | The count used for `written` is the size of the rectangle's intersection with the surface. |
| Canvas.NothingDropped | client/src/surface.rs:22-30 | Nothing is dropped if and only if the whole rectangle lies on the surface. |
| Surfaces.ExtractsRect | client/src/surface.rs:147-171 | An extraction has the surface's pixel at every cell on it and zero elsewhere, never a pixel of another row. |
| Surfaces.Surface.SetPixelBgr | client/src/surface.rs:104-115 | One pixel, opaque, or nothing outside the surface. |
| Surfaces.Surface.FillRect | client/src/surface.rs:117-137 | The nested loops on the pixel array fill the rectangle and count its visible area. |
| Surfaces.Surface.ExtractRect | client/src/surface.rs:147-171 | The loops produce the extraction and its count; the surface is not changed. |
| Surfaces.Surface.BlitRect | client/src/surface.rs:173-201 | The loops blit the rows the buffer holds, count exactly, and report a short buffer. |
| SurfaceManagers.SurfaceManager.Create | client/src/surface.rs:233-235 | Replaces the surface of that id by a blank one and leaves all others and the cache. |
| SurfaceManagers.SurfaceManager.Delete | client/src/surface.rs:237-239 | Removes that surface only and says whether it was there. |
| SurfaceManagers.SurfaceManager.Stamp | client/src/surface.rs:173-201 | Stamping a rectangle at a list of points in order equals the specification, with one outcome for each point. |
| SurfaceManagers.SurfaceManager.SurfaceToCache | client/src/surface.rs:256-269 | Snapshots the rectangle into the slot; nothing changes when the surface is missing. |
| SurfaceManagers.SurfaceManager.CacheToSurface | client/src/surface.rs:274-284 | Stamps the cached rectangle; a missing slot and a missing surface are told apart and change nothing. |
| SurfaceManagers.SurfaceManager.EvictCacheEntry | client/src/surface.rs:286-288 | Empties exactly that slot. |
| Screens.StampShows | client/src/surface.rs:173-201 | After stamping at a list of points each pixel has the source pixel of the last point covering it. |
| Screens.CopyShows | client/src/gfxstate.rs:386-426 | A surface-to-surface copy, with any overlap and list of points, gives each covered pixel the source pixel from before the copy of the last covering point, zero where the source runs off; no other surface changes. |
| Screens.RecallShows | client/src/gfxstate.rs:428-484 | A pixel painted from a slot is the pixel of the slot's source when it was stored. |
| GfxIsolation.RunKeepsSlot | client/src/gfxstate.rs:428-491 | No PDU other than a store to a slot or its eviction changes the slot, over any run. |
| GfxIsolation.RecallPaintsTheSnapshot | client/src/gfxstate.rs:428-484 | Over any run without a store to the slot, a cache-to-surface paints the pixels as they were at the store, whatever has been drawn or deleted since. |
| GfxAccounts.RunAccounts | client/src/gfxstate.rs:131-144 | Over any run the pixel counter grows by exactly the shortfalls of the draws and reads that pass through `check`. |
| GfxAccounts.UnchangedMeansChecksWhole | client/src/gfxstate.rs:131-144 | Over any run the pixel counter stands still if and only if nothing that passes through `check` lost a pixel. |
| GfxAccounts.LossIsCounted | client/src/gfxstate.rs:180-514 | A PDU counts no dropped update if and only if it is applied in full: surfaces and slot exist, no edge is swapped, the bitmap decodes and suffices, and no pixel of it, of a fill, of a stamp, of a read or of a declared tile is clipped. |
| GfxAccounts.UnchangedMeansAllApplied | client/src/gfxstate.rs:104-144 | Over any message's entries in any state, the update counter stands still if and only if every entry parsed and every PDU was applied in full, Progressive bitstreams included. |
| GfxIdeal.ApplyMatches | client/src/gfxstate.rs:180-514 | A PDU that reads nothing beyond an edge keeps each surface the restriction of an ideal canvas without edges, however much of its drawing is clipped. |
| GfxIdeal.UnchangedMeansIdeal | client/src/gfxstate.rs:131-144 | Over any run that leaves the pixel counter unchanged, every surface is the ideal one restricted to its size, every cached rectangle is the ideal one, and the decoders are in the same states. |
| GfxIdeal.ConnectionIsIdeal | client/src/gfxstate.rs:80-144 | A connection from its start on whose pixel counter stands at zero shows on every surface what an ideal client with no surfaces at the start shows. |
| GfxIdeal.ClippedReadsDiffer | client/src/gfxstate.rs:428-452 | The condition cannot be dropped: a stored rectangle that runs off the surface over drawn pixels differs from the ideal one. |
| GfxClear.RunShows | client/src/gfxstate.rs:260-327 | Over any run of PDUs on the client's own decoders, every picture a ClearCodec sender composes or recalls covers exactly its rectangle of the surface, pixel by pixel, and client and sender stay in step. |
| GfxProgressive.CreatedInStep | client/src/gfxstate.rs:205-214 | A surface that has just been created, whatever happened before, is in step with a sender that has sent nothing. |
| GfxClear.StartsInStep | client/src/gfxstate.rs:80-93 | A new connection is in step with a sender that begins with any number. |
| GfxProgressive.RunShows | client/src/gfxstate.rs:260-355 | Over any run of PDUs, drawing, creation and other surfaces' bitstreams included, each bitstream of a surface's sender leaves the tiles it sends as the sender means them, and both sides stay in step. |
| GfxOverhang.ClippedTilesAreUpdates | client/src/gfxstate.rs:329-355 | Whatever region a sender draws, the pixel counter stands still, and the update counter moves if and only if some tile begins off the surface or some declared pixel of a tile is not on it. |
| GfxOverhang.PixelCounterMissesTiles | client/src/progressive.rs:1353-1366 | A witness on the client's own decoders: on a surface just created 32 pixels wide, a sender's tile of 64 decodes, a declared part of it is clipped, no pixel is counted as dropped, and one update is. |
| GfxIsolation.CreationForgetsThePast | client/src/gfxstate.rs:205-214 | Two connections with any pasts that apply the same PDUs from a surface's creation on have the same tile states for it. |
| GfxIsolation.RunSameTiles | client/src/gfxstate.rs:180-514 | Two states that agree on one surface's existence and tile states agree on them after any run. |
| GfxRuns.ApplyKeepsInv | client/src/gfxstate.rs:180-514 | Every PDU keeps the invariant: tile states belong to live surfaces, no surface occurs twice among the outputs. |
| GfxRuns.RunKeepsInv | client/src/gfxstate.rs:180-514 | Every run keeps it. |
| GfxRuns.ReachableInv | client/src/gfxstate.rs:80-93 | Every state reachable from the start satisfies the invariant. |
| GfxRuns.AcksAreConsecutive | client/src/gfxstate.rs:251-258 | One acknowledgement for each END_FRAME, in order, with its frame and consecutive totals modulo 2^32. |
| GfxRuns.FailuresAreIsolated | client/src/gfxstate.rs:104-126 | Applying a message is folding its parseable PDUs; each unparseable one changes only the failure counters. |
| GfxRuns.MessageIsItsPdus | client/src/gfxstate.rs:104-126 | A message has the effect of its parseable PDUs in order and of one failure for each of the others; one with broken framing leaves the state as it was and acknowledges nothing. |
| GfxRuns.SentIsApplied | client/src/gfxstate.rs:104-126 | A message framed from PDUs has exactly the effect and the acknowledgements of these PDUs. |
| GfxStates.GfxState.Check | client/src/gfxstate.rs:131-144 | Counts an incomplete outcome as one dropped update and its shortfall in pixels. |
| GfxStates.GfxState.ResetGraphics | client/src/gfxstate.rs:188-203 | Clears outputs and all tile states; surfaces survive. |
| GfxStates.GfxState.CreateSurface | client/src/gfxstate.rs:205-214 | A new surface starts without tile states. |
| GfxStates.GfxState.DeleteSurface | client/src/gfxstate.rs:216-230 | Removes surface, tile states and mapping. |
| GfxStates.GfxState.MapSurfaceToOutput | client/src/gfxstate.rs:232-242 | Replaces the mapping of that surface only. |
| GfxStates.GfxState.EndFrame | client/src/gfxstate.rs:251-258 | Counts the frame and gives its acknowledgement. |
| GfxStates.GfxState.WireToSurface1 | client/src/gfxstate.rs:260-327 | Dispatch by codec on the live decoders and the surface, with every failure counted. |
| GfxStates.GfxState.WireToSurface2 | client/src/gfxstate.rs:329-355 | Only the progressive codec is accepted here, drawn at the origin. |
| GfxStates.GfxState.SolidFill | client/src/gfxstate.rs:357-384 | Fills all rectangles in order with the opaque colour, skipping and counting inverted ones. |
| GfxStates.GfxState.SurfaceToSurface | client/src/gfxstate.rs:386-426 | Reads the source into its own buffer, then stamps it at all points. |
| GfxStates.GfxState.SurfaceToCache | client/src/gfxstate.rs:428-452 | Snapshots and counts; a missing surface is counted as dropped. |
| GfxStates.GfxState.CacheToSurface | client/src/gfxstate.rs:454-484 | Stamps and counts; missing slots and surfaces are counted as dropped. |
| GfxStates.GfxState.Apply | client/src/gfxstate.rs:180-514 | One PDU on the object graph of surfaces, caches and decoders equals the state machine's step, with its action. |
| GfxStates.GfxState.ApplyMessage | client/src/gfxstate.rs:104-126 | One message: all of it is split before any of it is applied, and the result is that of the specification. |
| Gfx.RectU16.Size | client/src/gfx.rs:76-86 | A size exists if and only if no edge is swapped, and then leads from one corner to the other. |
| Gfx.SplitReturnsAll | client/src/gfx.rs:422-440 | Splitting the concatenation of any well-framed PDUs returns exactly these PDUs, an unparseable body only marked as such. |
| Gfx.PduRoundTrip | client/src/gfx.rs:189-404 | Every PDU that can be expressed is parsed back from its body. |
| Gfx.MessageRoundTrip | client/src/gfx.rs:189-440 | A message built from PDUs is split and parsed into exactly these PDUs. |
| GfxParser.ParsePdu | client/src/gfx.rs:189-404 | The parser with its loops over rectangles and points equals the specification for every command. |
| GfxParser.SplitPdus | client/src/gfx.rs:422-440 | The splitting loop equals the specification; a length that cannot be trusted fails the message. |
| Dvc.WidthBack | client/src/dvc.rs:12-46 | Every 32-bit field is read back from the width its code chooses, and takes at most four bytes. |
| Dvc.SendData | client/src/dvc.rs:220-251 | The fragmentation loop sends exactly the specified fragments. |
| Dvc.FragmentsFit | client/src/dvc.rs:220-251 | Every fragment is at most 1599 bytes. |
| Dvc.OneChunk | client/src/dvc.rs:220-251 | A fragment always fits one static channel chunk. |
| Dvc.DvcManager.HandleMessage | client/src/dvc.rs:137-215 | One message on the channel tables: state, events, replies and failure as specified for every command, names read as the client reads text. |
| Utf8.KeptIfWellFormed | client/src/dvc.rs:110-116 | A channel name is read as it was sent if and only if it is well-formed UTF-8. |
| Utf8.SentOrReplaced | client/src/dvc.rs:110-116 | A name that is read without a replacement character is the name that was sent. |
| Dvc.OnlyExactNames | client/src/dvc.rs:110-116 | A name without replacement characters is what the client reads from a create request if and only if the request spells exactly this name up to its first zero byte and the name is well-formed. |
| DvcDelivery.AllHandledIfParsed | client/src/dvc.rs:137-215 | Over any run of messages, in whatever state it begins, nothing is refused if and only if each message has the fields its kind must have. |
| DvcDelivery.DataPduBack | client/src/dvc.rs:175-192 | A data fragment is recognised and gives back its channel and bytes. |
| DvcDelivery.FirstPduBack | client/src/dvc.rs:193-205 | A first fragment gives back channel, total length and bytes. |
| DvcDelivery.OthersDoNotMatter | client/src/dvc.rs:137-215 | A message for another channel changes nothing of a channel's reassembly and delivers nothing for it. |
| DvcDelivery.DeliversAll | client/src/dvc.rs:137-251 | Under any interleaving that keeps per-channel order, a channel's messages (each below 2^32 bytes) come out exactly, once and in order. |
| DvcDelivery.OnePacketEach | client/src/dvc.rs:220-251 | A stream of fitting PDUs becomes one static channel packet each, in order. |
| DvcDelivery.EndToEnd | client/src/dvc.rs:137-251 | Both reassembly layers together deliver each channel's messages exactly, once and in order. |
| VChannel.Send | client/src/vchannel.rs:13-35 | The chunking loop sends exactly the specified chunks with their flags; an empty message takes one. |
| VChannel.ChannelDemux.Feed | client/src/vchannel.rs:52-72 | One packet on the per-channel map equals the specification, with its error for short packets. |
| VChannel.FedUnlessShort | client/src/vchannel.rs:52-72 | No packet of any run is refused if and only if each is long enough for its header. |
| VChannel.DeliversAll | client/src/vchannel.rs:13-72 | Whatever packets of other channels lie between them, the chunks of a channel's messages are reassembled to exactly these messages in order. |
| Connection.ServeOne | client/src/session.rs:475-490 | One message through the live decompressor and the live surfaces is one turn of the loop on their abstract values. |
| Connection.ServeGraphics | client/src/session.rs:464-494 | The loop over router, decompressor and surfaces as they are, receiving, decompressing and applying one message after another, equals the fold over the messages received; a failure ends it. |
| Connection.ServesAsSent | client/src/session.rs:464-494 | Messages that carry a sender's PDUs, with matches into all that went before, lead the client to the state of these PDUs, with one acknowledgement for each of their frames. |
| Connection.DrawsWhatIsSent | client/src/session.rs:464-494 | The whole receive path: PDUs framed, compressed, fragmented, chunked and interleaved with other traffic reach the client's surfaces exactly as sent. |
| EndToEnd.TilesArrive | client/src/session.rs:464-494 | Whatever compressed messages carry them, the tiles a Progressive sender sends and refines appear on the surface as the sender means them. |
| EndToEnd.PicturesArrive | client/src/session.rs:464-494 | The same for the pictures of a ClearCodec sender. |
| Router.PurgeKeepsOwn | client/src/session.rs:146-149 | The purge of an overlong queue never drops a message of the channel that is waited for. |
| Router.ReceiveIsFifo | client/src/session.rs:132-155 | A receive hands out the next message of its channel and nothing else of it; it ends empty only when nothing is to come. |
| Router.IoLosesNothing | client/src/session.rs:89-101 | Waiting for the I/O channel takes nothing away from any dynamic channel. |
| Router.ReceiveAll | client/src/session.rs:132-155 | Receiving again and again yields all messages of the channel in order. |
| Router.SentIsWellFormed | client/src/session.rs:54-155 | When the packets of the channel are the chunks of PDUs, nothing is refused on the way if and only if each of these PDUs has the fields it must have. |
| Router.FragmentsAreWellFormed | client/src/session.rs:54-155 | Chunks of the fragments of senders' messages, on whatever channels, are never refused. |
| Router.SentIsReceived | client/src/session.rs:54-155 | The whole way: messages fragmented, chunked and interleaved with other traffic are received one call after another, exactly and in order. |
| Router.ChannelRouter.HandleDrdynvcChunk | client/src/session.rs:54-65 | Queues data events and returns the others. |
| Router.ChannelRouter.RecvIo | client/src/session.rs:89-101 | The waiting loop equals the specification. |
| Router.ChannelRouter.RecvDvcData | client/src/session.rs:132-155 | The loop over queue, purge and packets equals the specification. |

## Left out

- Sign-in, TLS, connection set-up, licensing, capabilities, input, window, record and replay, `bitmap.rs` and `debug.rs`: no graphics state.
- `open_dvc_channel`: of `session.rs` only `ChannelRouter` and the graphics loop (`Connection.ServeGraphics`) are modelled; recording and publishing are left out of the loop, and its acknowledgements are returned; MCS is an ordered carrier of (channel, payload) pairs (class `Router.Transport`).
- Sockets: what would be sent is returned as a value, and write errors do not occur.
- Logging, error texts, debug modes, update tags, overlays, `present_tiles` and counters that are only printed: no effect on surfaces.
- `build_caps_advertise` and `build_frame_acknowledge`: fixed layouts.
- Closeness of the colour conversions to a real colour space: they are fixed integer functions.
- Progressive SYNC, FRAME and CONTEXT blocks: skipped, as in the client.
- RlgrDecoder.Rlgr1Decode: does not model the width of the accumulators cell by cell; `Rlgr.CodeFits` shows that 32 bits hold them for data whose length is a 16-bit field, which is how all callers get it.
- PlaneDecoder.DecodeComponentCoeffs: the two variants of the client are one method with a layout flag, and a refused shift is ruled out because bit positions are made of nibbles.
- ClearDecoder.BlitBgrBuffer: does not model the 32-bit wrap of the byte index in draws of more than 2^32 / 3 pixels.
- Surfaces.Surface.BlitRect: the byte buffer is modelled as pixels of four bytes; glyphs and tiles likewise as pixels of three.
- NsDecoder.Render: appends pixels in reading order where the client stores each at its index; `NsDecoder.RasterShows` says that the index is the same.
- ZgfxDecoder.ZgfxContext.Decompress: sizes and positions are unbounded integers instead of the client's 64-bit ones.
- GfxStates.GfxState.EndFrame: the 32-bit frame total wraps, as in a release build.
- Extrapolate.PicturesAreEqual: compares tiles none of whose samples saturates; what saturated tiles share is not characterised.
- Long methods of the client are split into several here, each with its own contract.
