/**
 The 293 codes of `scripts/LECHash.c`, in its rows of twelve, and the proof that its self-check reports
 nothing.  `Owner` and `Guest` are a certificate: the finished table as the build loop leaves it.
 */
module LecCodes {
  import opened Options
  import opened TaggedHash
  import opened HashCertificate
  import opened HashSufficiency
  import opened LecHash

  function Row0(i: nat): bv16 {
    match i
    case 0 => 0x0004 case 1 => 0x0024 case 2 => 0x0014 case 3 => 0x0011 case 4 => 0x0051 case 5 => 0x0031
    case 6 => 0x0071 case 7 => 0x0009 case 8 => 0x0049 case 9 => 0x0029 case 10 => 0x0069 case 11 => 0x0015
    case _ => 0
  }

  function Row1(i: nat): bv16 {
    match i
    case 12 => 0x0095 case 13 => 0x0055 case 14 => 0x00d5 case 15 => 0x0035 case 16 => 0x00b5 case 17 => 0x0075
    case 18 => 0x001d case 19 => 0x00f5 case 20 => 0x011d case 21 => 0x009d case 22 => 0x019d case 23 => 0x005d
    case _ => 0
  }

  function Row2(i: nat): bv16 {
    match i
    case 24 => 0x000d case 25 => 0x008d case 26 => 0x015d case 27 => 0x00dd case 28 => 0x01dd case 29 => 0x003d
    case 30 => 0x013d case 31 => 0x00bd case 32 => 0x004d case 33 => 0x01bd case 34 => 0x007d case 35 => 0x006b
    case _ => 0
  }

  function Row3(i: nat): bv16 {
    match i
    case 36 => 0x017d case 37 => 0x00fd case 38 => 0x01fd case 39 => 0x0003 case 40 => 0x0103 case 41 => 0x0083
    case 42 => 0x0183 case 43 => 0x026b case 44 => 0x0043 case 45 => 0x016b case 46 => 0x036b case 47 => 0x00eb
    case _ => 0
  }

  function Row4(i: nat): bv16 {
    match i
    case 48 => 0x0143 case 49 => 0x00c3 case 50 => 0x02eb case 51 => 0x01c3 case 52 => 0x01eb case 53 => 0x0023
    case 54 => 0x03eb case 55 => 0x0123 case 56 => 0x00a3 case 57 => 0x01a3 case 58 => 0x001b case 59 => 0x021b
    case _ => 0
  }

  function Row5(i: nat): bv16 {
    match i
    case 60 => 0x0063 case 61 => 0x011b case 62 => 0x0163 case 63 => 0x00e3 case 64 => 0x00cd case 65 => 0x01e3
    case 66 => 0x0013 case 67 => 0x0113 case 68 => 0x0093 case 69 => 0x031b case 70 => 0x009b case 71 => 0x029b
    case _ => 0
  }

  function Row6(i: nat): bv16 {
    match i
    case 72 => 0x0193 case 73 => 0x0053 case 74 => 0x019b case 75 => 0x039b case 76 => 0x005b case 77 => 0x025b
    case 78 => 0x015b case 79 => 0x035b case 80 => 0x0153 case 81 => 0x00d3 case 82 => 0x00db case 83 => 0x02db
    case _ => 0
  }

  function Row7(i: nat): bv16 {
    match i
    case 84 => 0x01db case 85 => 0x03db case 86 => 0x003b case 87 => 0x023b case 88 => 0x013b case 89 => 0x01d3
    case 90 => 0x033b case 91 => 0x00bb case 92 => 0x02bb case 93 => 0x01bb case 94 => 0x03bb case 95 => 0x007b
    case _ => 0
  }

  function Row8(i: nat): bv16 {
    match i
    case 96 => 0x002d case 97 => 0x027b case 98 => 0x017b case 99 => 0x037b case 100 => 0x00fb case 101 => 0x02fb
    case 102 => 0x01fb case 103 => 0x03fb case 104 => 0x0007 case 105 => 0x0207 case 106 => 0x0107 case 107 => 0x0307
    case _ => 0
  }

  function Row9(i: nat): bv16 {
    match i
    case 108 => 0x0087 case 109 => 0x0287 case 110 => 0x0187 case 111 => 0x0387 case 112 => 0x0033 case 113 => 0x0047
    case 114 => 0x0247 case 115 => 0x0147 case 116 => 0x0347 case 117 => 0x00c7 case 118 => 0x02c7 case 119 => 0x01c7
    case _ => 0
  }

  function Row10(i: nat): bv16 {
    match i
    case 120 => 0x0133 case 121 => 0x03c7 case 122 => 0x0027 case 123 => 0x0227 case 124 => 0x0127 case 125 => 0x0327
    case 126 => 0x00a7 case 127 => 0x00b3 case 128 => 0x0019 case 129 => 0x01b3 case 130 => 0x0073 case 131 => 0x02a7
    case _ => 0
  }

  function Row11(i: nat): bv16 {
    match i
    case 132 => 0x0173 case 133 => 0x01a7 case 134 => 0x03a7 case 135 => 0x0067 case 136 => 0x00f3 case 137 => 0x0267
    case 138 => 0x0167 case 139 => 0x0367 case 140 => 0x00e7 case 141 => 0x02e7 case 142 => 0x01e7 case 143 => 0x03e7
    case _ => 0
  }

  function Row12(i: nat): bv16 {
    match i
    case 144 => 0x01f3 case 145 => 0x0017 case 146 => 0x0217 case 147 => 0x0117 case 148 => 0x0317 case 149 => 0x0097
    case 150 => 0x0297 case 151 => 0x0197 case 152 => 0x0397 case 153 => 0x0057 case 154 => 0x0257 case 155 => 0x0157
    case _ => 0
  }

  function Row13(i: nat): bv16 {
    match i
    case 156 => 0x0357 case 157 => 0x00d7 case 158 => 0x02d7 case 159 => 0x01d7 case 160 => 0x03d7 case 161 => 0x0037
    case 162 => 0x0237 case 163 => 0x0137 case 164 => 0x0337 case 165 => 0x00b7 case 166 => 0x02b7 case 167 => 0x01b7
    case _ => 0
  }

  function Row14(i: nat): bv16 {
    match i
    case 168 => 0x03b7 case 169 => 0x0077 case 170 => 0x0277 case 171 => 0x07ff case 172 => 0x0177 case 173 => 0x0377
    case 174 => 0x00f7 case 175 => 0x02f7 case 176 => 0x01f7 case 177 => 0x03f7 case 178 => 0x03ff case 179 => 0x000f
    case _ => 0
  }

  function Row15(i: nat): bv16 {
    match i
    case 180 => 0x020f case 181 => 0x010f case 182 => 0x030f case 183 => 0x008f case 184 => 0x028f case 185 => 0x018f
    case 186 => 0x038f case 187 => 0x004f case 188 => 0x024f case 189 => 0x014f case 190 => 0x034f case 191 => 0x00cf
    case _ => 0
  }

  function Row16(i: nat): bv16 {
    match i
    case 192 => 0x000b case 193 => 0x02cf case 194 => 0x01cf case 195 => 0x03cf case 196 => 0x002f case 197 => 0x022f
    case 198 => 0x010b case 199 => 0x012f case 200 => 0x032f case 201 => 0x00af case 202 => 0x02af case 203 => 0x01af
    case _ => 0
  }

  function Row17(i: nat): bv16 {
    match i
    case 204 => 0x008b case 205 => 0x03af case 206 => 0x006f case 207 => 0x026f case 208 => 0x018b case 209 => 0x016f
    case 210 => 0x036f case 211 => 0x00ef case 212 => 0x02ef case 213 => 0x01ef case 214 => 0x03ef case 215 => 0x001f
    case _ => 0
  }

  function Row18(i: nat): bv16 {
    match i
    case 216 => 0x021f case 217 => 0x011f case 218 => 0x031f case 219 => 0x009f case 220 => 0x029f case 221 => 0x019f
    case 222 => 0x039f case 223 => 0x005f case 224 => 0x004b case 225 => 0x025f case 226 => 0x015f case 227 => 0x035f
    case _ => 0
  }

  function Row19(i: nat): bv16 {
    match i
    case 228 => 0x00df case 229 => 0x02df case 230 => 0x01df case 231 => 0x03df case 232 => 0x003f case 233 => 0x023f
    case 234 => 0x013f case 235 => 0x033f case 236 => 0x00bf case 237 => 0x02bf case 238 => 0x014b case 239 => 0x01bf
    case _ => 0
  }

  function Row20(i: nat): bv16 {
    match i
    case 240 => 0x00ad case 241 => 0x00cb case 242 => 0x01cb case 243 => 0x03bf case 244 => 0x002b case 245 => 0x007f
    case 246 => 0x027f case 247 => 0x017f case 248 => 0x012b case 249 => 0x037f case 250 => 0x00ff case 251 => 0x02ff
    case _ => 0
  }

  function Row21(i: nat): bv16 {
    match i
    case 252 => 0x00ab case 253 => 0x01ab case 254 => 0x006d case 255 => 0x0059 case 256 => 0x17ff case 257 => 0x0fff
    case 258 => 0x0039 case 259 => 0x0079 case 260 => 0x01ff case 261 => 0x0005 case 262 => 0x0045 case 263 => 0x0034
    case _ => 0
  }

  function Row22(i: nat): bv16 {
    match i
    case 264 => 0x000c case 265 => 0x002c case 266 => 0x001c case 267 => 0x0000 case 268 => 0x003c case 269 => 0x0002
    case 270 => 0x0022 case 271 => 0x0010 case 272 => 0x0012 case 273 => 0x0008 case 274 => 0x0032 case 275 => 0x000a
    case _ => 0
  }

  function Row23(i: nat): bv16 {
    match i
    case 276 => 0x002a case 277 => 0x001a case 278 => 0x003a case 279 => 0x0006 case 280 => 0x0026 case 281 => 0x0016
    case 282 => 0x0036 case 283 => 0x000e case 284 => 0x002e case 285 => 0x001e case 286 => 0x003e case 287 => 0x0001
    case _ => 0
  }

  function Row24(i: nat): bv16 {
    match i
    case 288 => 0x00ed case 289 => 0x0018 case 290 => 0x0021 case 291 => 0x0025 case 292 => 0x0065
    case _ => 0
  }

  /** The codes, by index. */
  function Code(i: nat): bv16 {
    if i < 12 then Row0(i)
    else if i < 24 then Row1(i)
    else if i < 36 then Row2(i)
    else if i < 48 then Row3(i)
    else if i < 60 then Row4(i)
    else if i < 72 then Row5(i)
    else if i < 84 then Row6(i)
    else if i < 96 then Row7(i)
    else if i < 108 then Row8(i)
    else if i < 120 then Row9(i)
    else if i < 132 then Row10(i)
    else if i < 144 then Row11(i)
    else if i < 156 then Row12(i)
    else if i < 168 then Row13(i)
    else if i < 180 then Row14(i)
    else if i < 192 then Row15(i)
    else if i < 204 then Row16(i)
    else if i < 216 then Row17(i)
    else if i < 228 then Row18(i)
    else if i < 240 then Row19(i)
    else if i < 252 then Row20(i)
    else if i < 264 then Row21(i)
    else if i < 276 then Row22(i)
    else if i < 288 then Row23(i)
    else Row24(i)
  }

  function Owner0(q: nat): nat {
    match q
    case 0 => 123 case 1 => 287 case 2 => 269 case 3 => 39 case 4 => 0 case 5 => 261 case 6 => 279
    case 7 => 104 case 8 => 197 case 9 => 7 case 10 => 275 case 11 => 192 case 12 => 264 case 13 => 24
    case 14 => 283 case 15 => 179 case 16 => 3 case 17 => 162 case 18 => 66 case 19 => 272 case 20 => 11
    case 21 => 2 case 22 => 145 case 23 => 281 case 24 => 128 case 25 => 233 case 26 => 58 case 27 => 277
    case _ => 293
  }

  function Owner1(q: nat): nat {
    match q
    case 28 => 18 case 29 => 87 case 30 => 215 case 31 => 285 case 32 => 270 case 33 => 53 case 34 => 105
    case 35 => 290 case 36 => 280 case 37 => 122 case 38 => 1 case 39 => 291 case 40 => 276 case 41 => 244
    case 42 => 180 case 43 => 9 case 44 => 284 case 45 => 196 case 46 => 265 case 47 => 96 case 48 => 112
    case 49 => 274 case 50 => 5 case 51 => 146 case 52 => 161 case 53 => 282 case 54 => 15 case 55 => 263
    case _ => 293
  }

  function Owner2(q: nat): nat {
    match q
    case 56 => 86 case 57 => 278 case 58 => 258 case 59 => 216 case 60 => 232 case 61 => 286 case 62 => 29
    case 63 => 59 case 65 => 262 case 67 => 113 case 68 => 137 case 71 => 44 case 72 => 43 case 73 => 32
    case 75 => 187 case 76 => 207 case 77 => 8 case 79 => 224 case 80 => 13 case 82 => 153 case 84 => 4
    case 85 => 170 case 86 => 73 case 88 => 23 case 89 => 97 case 90 => 223 case 92 => 255 case 93 => 246
    case _ => 293
  }

  function Owner3(q: nat): nat {
    match q
    case 94 => 76 case 97 => 135 case 99 => 292 case 101 => 60 case 102 => 114 case 105 => 206 case 107 => 254
    case 109 => 35 case 110 => 188 case 111 => 10 case 112 => 169 case 114 => 17 case 116 => 130 case 118 => 6
    case 119 => 154 case 120 => 245 case 122 => 34 case 123 => 77 case 124 => 95 case 126 => 259 case 127 => 225
    case 129 => 202 case 130 => 204 case 132 => 25 case 134 => 183 case 137 => 131 case 138 => 41 case 142 => 108
    case _ => 293
  }

  function Owner4(q: nat): nat {
    match q
    case 144 => 237 case 147 => 70 case 148 => 92 case 149 => 21 case 151 => 219 case 152 => 166 case 155 => 68
    case 157 => 12 case 159 => 149 case 160 => 252 case 163 => 184 case 164 => 201 case 166 => 240 case 168 => 56
    case 171 => 109 case 172 => 126 case 177 => 91 case 178 => 220 case 181 => 236 case 182 => 71 case 183 => 31
    case 185 => 127 case 186 => 150 case 189 => 165 case 191 => 16 case 192 => 64 case 193 => 50 case 194 => 191
    case _ => 293
  }

  function Owner5(q: nat): nat {
    match q
    case 197 => 212 case 198 => 241 case 202 => 117 case 205 => 141 case 206 => 49 case 208 => 101 case 209 => 27
    case 211 => 228 case 212 => 251 case 215 => 82 case 217 => 14 case 219 => 157 case 220 => 175 case 223 => 81
    case 224 => 211 case 226 => 288 case 228 => 47 case 231 => 193 case 232 => 140 case 236 => 63 case 239 => 118
    case 241 => 250 case 242 => 83 case 243 => 37 case 245 => 100 case 246 => 229 case 249 => 174 case 251 => 19
    case _ => 293
  }

  function Owner6(q: nat): nat {
    match q
    case 253 => 136 case 254 => 158 case 256 => 67 case 259 => 164 case 260 => 147 case 264 => 61 case 267 => 235
    case 268 => 217 case 270 => 20 case 271 => 90 case 273 => 40 case 274 => 125 case 277 => 106 case 280 => 257
    case 281 => 198 case 282 => 200 case 285 => 181 case 289 => 148 case 290 => 120 case 294 => 163 case 297 => 218
    case 298 => 88 case 300 => 30 case 301 => 69 case 302 => 234 case 304 => 107 case 307 => 55 case 311 => 124
    case _ => 293
  }

  function Owner7(q: nat): nat {
    match q
    case 312 => 182 case 315 => 248 case 319 => 199 case 320 => 155 case 324 => 80 case 327 => 173 case 328 => 226
    case 330 => 26 case 331 => 99 case 332 => 78 case 335 => 249 case 337 => 115 case 341 => 48 case 342 => 139
    case 345 => 189 case 346 => 46 case 347 => 256 case 349 => 238 case 350 => 210 case 354 => 172 case 357 => 156
    case 358 => 132 case 360 => 36 case 361 => 79 case 362 => 247 case 365 => 227 case 366 => 98 case 371 => 138
    case _ => 293
  }

  function Owner8(q: nat): nat {
    match q
    case 372 => 116 case 375 => 62 case 379 => 209 case 380 => 190 case 383 => 45 case 385 => 74 case 386 => 243
    case 389 => 221 case 390 => 94 case 391 => 22 case 393 => 72 case 394 => 168 case 396 => 171 case 397 => 151
    case 400 => 208 case 403 => 205 case 404 => 185 case 408 => 42 case 411 => 134 case 412 => 110 case 416 => 222
    case 419 => 93 case 420 => 75 case 421 => 33 case 423 => 239 case 424 => 152 case 427 => 129 case 431 => 167
    case _ => 293
  }

  function Owner9(q: nat): nat {
    match q
    case 433 => 186 case 434 => 253 case 438 => 203 case 441 => 111 case 442 => 57 case 446 => 133 case 448 => 268
    case 449 => 230 case 450 => 103 case 451 => 28 case 453 => 84 case 454 => 178 case 457 => 159 case 461 => 89
    case 462 => 177 case 464 => 194 case 467 => 54 case 468 => 242 case 471 => 214 case 472 => 119 case 476 => 51
    case 479 => 143 case 480 => 85 case 481 => 38 case 482 => 266 case 483 => 260 case 484 => 231 case 486 => 289
    case _ => 293
  }

  function Owner10(q: nat): nat {
    match q
    case 487 => 102 case 491 => 176 case 492 => 160 case 494 => 271 case 495 => 144 case 498 => 213 case 501 => 195
    case 502 => 52 case 506 => 142 case 508 => 273 case 509 => 121 case 510 => 65 case 511 => 267
    case _ => 293
  }

  /** The index stored in each cell; 293 for the cells that stay empty. */
  function Owner(q: nat): nat {
    if q <= 27 then Owner0(q)
    else if q <= 55 then Owner1(q)
    else if q <= 93 then Owner2(q)
    else if q <= 142 then Owner3(q)
    else if q <= 194 then Owner4(q)
    else if q <= 251 then Owner5(q)
    else if q <= 311 then Owner6(q)
    else if q <= 371 then Owner7(q)
    else if q <= 431 then Owner8(q)
    else if q <= 486 then Owner9(q)
    else Owner10(q)
  }

  /** The second index of each shared bucket. */
  function Guest(q: nat): nat {
    match q
    case 0 => 267 case 8 => 273 case 17 => 271 case 25 => 289 case 29 => 266 case 63 => 268 case 164 => 256
    case _ => 293
  }

  const HUFF_CODE_LEC: seq<bv16> := seq(293, i requires 0 <= i < 293 => Code(i))

  /** The seven indices whose codes come second. */
  predicate IsSecond(i: nat) {
    i == 256 || i == 266 || i == 267 || i == 268 || i == 271 || i == 273 || i == 289
  }

  /** The code at i is stored in its bucket. */
  predicate AtHome(i: nat, c: bv16) {
    IsCode(c) && Owner(Bucket(c)) == i
  }

  /** The code at i is stored in its slot q; code j is the first of its bucket h. */
  predicate AtSlot(i: nat, c: bv16, j: nat, first: bv16, h: nat, q: nat) {
    && IsCode(c) && IsCode(first) && j < i && c != first
    && Bucket(c) == h && Bucket(first) == h && Owner(h) == j && Guest(h) == i
    && Slot(c) == Some(q) && Owner(q) == i
  }

  // ---------- The codes that come first in their buckets, row by row ----------

  lemma Home0(i: nat) requires 0 <= i < 12 ensures AtHome(i, Row0(i)) { }
  lemma Home1(i: nat) requires 12 <= i < 24 ensures AtHome(i, Row1(i)) { }
  lemma Home2(i: nat) requires 24 <= i < 36 ensures AtHome(i, Row2(i)) { }
  lemma Home3(i: nat) requires 36 <= i < 48 ensures AtHome(i, Row3(i)) { }
  lemma Home4(i: nat) requires 48 <= i < 60 ensures AtHome(i, Row4(i)) { }
  lemma Home5(i: nat) requires 60 <= i < 72 ensures AtHome(i, Row5(i)) { }
  lemma Home6(i: nat) requires 72 <= i < 84 ensures AtHome(i, Row6(i)) { }
  lemma Home7(i: nat) requires 84 <= i < 96 ensures AtHome(i, Row7(i)) { }
  lemma Home8(i: nat) requires 96 <= i < 108 ensures AtHome(i, Row8(i)) { }
  lemma Home9(i: nat) requires 108 <= i < 120 ensures AtHome(i, Row9(i)) { }
  lemma Home10(i: nat) requires 120 <= i < 132 ensures AtHome(i, Row10(i)) { }
  lemma Home11(i: nat) requires 132 <= i < 144 ensures AtHome(i, Row11(i)) { }
  lemma Home12(i: nat) requires 144 <= i < 156 ensures AtHome(i, Row12(i)) { }
  lemma Home13(i: nat) requires 156 <= i < 168 ensures AtHome(i, Row13(i)) { }
  lemma Home14(i: nat) requires 168 <= i < 180 ensures AtHome(i, Row14(i)) { }
  lemma Home15(i: nat) requires 180 <= i < 192 ensures AtHome(i, Row15(i)) { }
  lemma Home16(i: nat) requires 192 <= i < 204 ensures AtHome(i, Row16(i)) { }
  lemma Home17(i: nat) requires 204 <= i < 216 ensures AtHome(i, Row17(i)) { }
  lemma Home18(i: nat) requires 216 <= i < 228 ensures AtHome(i, Row18(i)) { }
  lemma Home19(i: nat) requires 228 <= i < 240 ensures AtHome(i, Row19(i)) { }
  lemma Home20(i: nat) requires 240 <= i < 252 ensures AtHome(i, Row20(i)) { }
  lemma Home21(i: nat) requires 252 <= i < 264 && !IsSecond(i) ensures AtHome(i, Row21(i)) { }
  lemma Home22(i: nat) requires 264 <= i < 276 && !IsSecond(i) ensures AtHome(i, Row22(i)) { }
  lemma Home23(i: nat) requires 276 <= i < 288 ensures AtHome(i, Row23(i)) { }
  lemma Home24(i: nat) requires 288 <= i < 293 && !IsSecond(i) ensures AtHome(i, Row24(i)) { }

  lemma EveryHome(i: nat)
    requires i < 293 && !IsSecond(i)
    ensures AtHome(i, Code(i))
  {
    match i / 12
    case 0 => Home0(i); case 1 => Home1(i); case 2 => Home2(i); case 3 => Home3(i); case 4 => Home4(i);
    case 5 => Home5(i); case 6 => Home6(i); case 7 => Home7(i); case 8 => Home8(i); case 9 => Home9(i);
    case 10 => Home10(i); case 11 => Home11(i); case 12 => Home12(i); case 13 => Home13(i); case 14 => Home14(i);
    case 15 => Home15(i); case 16 => Home16(i); case 17 => Home17(i); case 18 => Home18(i); case 19 => Home19(i);
    case 20 => Home20(i); case 21 => Home21(i); case 22 => Home22(i); case 23 => Home23(i); case _ => Home24(i);
  }

  // ---------- The codes that come second ----------

  lemma SharedBuckets()
    ensures Code(256) == 0x17ff && Code(201) == 0x00af
    ensures Code(266) == 0x001c && Code(87) == 0x023b
    ensures Code(267) == 0x0000 && Code(123) == 0x0227
    ensures Code(268) == 0x003c && Code(59) == 0x021b
    ensures Code(271) == 0x0010 && Code(162) == 0x0237
    ensures Code(273) == 0x0008 && Code(197) == 0x022f
    ensures Code(289) == 0x0018 && Code(233) == 0x023f
  {
  }

  lemma Slot256()
    ensures AtSlot(256, 0x17ff, 201, 0x00af, 164, 347)
  {
  }

  lemma Slot266()
    ensures AtSlot(266, 0x001c, 87, 0x023b, 29, 482)
  {
  }

  lemma Slot267()
    ensures AtSlot(267, 0x0000, 123, 0x0227, 0, 511)
  {
  }

  lemma Slot268()
    ensures AtSlot(268, 0x003c, 59, 0x021b, 63, 448)
  {
  }

  lemma Slot271()
    ensures AtSlot(271, 0x0010, 162, 0x0237, 17, 494)
  {
  }

  lemma Slot273()
    ensures AtSlot(273, 0x0008, 197, 0x022f, 8, 508)
  {
  }

  lemma Slot289()
    ensures AtSlot(289, 0x0018, 233, 0x023f, 25, 486)
  {
  }

  lemma EverySlot(i: nat) returns (j: nat, h: nat, q: nat)
    requires IsSecond(i)
    ensures AtSlot(i, Code(i), j, Code(j), h, q)
  {
    SharedBuckets();
    match i
    case 256 => Slot256(); j, h, q := 201, 164, 347;
    case 266 => Slot266(); j, h, q := 87, 29, 482;
    case 267 => Slot267(); j, h, q := 123, 0, 511;
    case 268 => Slot268(); j, h, q := 59, 63, 448;
    case 271 => Slot271(); j, h, q := 162, 17, 494;
    case 273 => Slot273(); j, h, q := 197, 8, 508;
    case _ => Slot289(); j, h, q := 233, 25, 486;
  }

  lemma EveryCodePlaced(i: nat)
    requires i < 293
    ensures Placed(Instance(), HUFF_CODE_LEC, Owner, Guest, i) && Instance().isCode(HUFF_CODE_LEC[i])
  {
    assert HUFF_CODE_LEC[i] == Code(i);
    if IsSecond(i) {
      var j, h, q := EverySlot(i);
      assert HUFF_CODE_LEC[j] == Code(j);
    } else {
      EveryHome(i);
    }
  }

  /** The program's own codes are admissible. */
  lemma AllAdmissible()
    ensures Admissible(Instance(), HUFF_CODE_LEC) && Codes(Instance(), HUFF_CODE_LEC)
  {
    forall i | 0 <= i < 293
      ensures Placed(Instance(), HUFF_CODE_LEC, Owner, Guest, i) && Instance().isCode(HUFF_CODE_LEC[i])
    {
      EveryCodePlaced(i);
    }
    CertifiedIsAdmissible(Instance(), HUFF_CODE_LEC, Owner, Guest);
  }

  /** So its self-check reports nothing: every code looks up to its index, at the end of the build
      and at every turn of it. */
  lemma SelfCheckPasses(n: nat)
    requires n <= 293
    ensures InvertsTo(Instance(), HUFF_CODE_LEC, n)
  {
    AllAdmissible();
    InstanceWellFormed();
    AdmissibleInverts(Instance(), HUFF_CODE_LEC, n);
  }
}
