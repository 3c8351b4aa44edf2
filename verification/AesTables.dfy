/**
 The lookup tables of ln_aes.c, one function from an index byte to an entry for each
 table. The entries stand in index order and are reached by comparing the index.
 */
module AesTables {
  /** g_sbox: the substitution box. */
  function Sbox(x: bv8): bv8 {
    if x < 0x80 then
     if x < 0x40 then
      if x < 0x20 then
       if x < 0x10 then
        if x < 0x08 then
         if x < 4 then if x < 2 then if x < 1 then 99 else 124 else if x < 3 then 119 else 123
         else if x < 6 then if x < 5 then 242 else 107 else if x < 7 then 111 else 197
        else
         if x < 12 then if x < 10 then if x < 9 then 48 else 1 else if x < 11 then 103 else 43
         else if x < 14 then if x < 13 then 254 else 215 else if x < 15 then 171 else 118
       else
        if x < 0x18 then
         if x < 20 then if x < 18 then if x < 17 then 202 else 130 else if x < 19 then 201 else 125
         else if x < 22 then if x < 21 then 250 else 89 else if x < 23 then 71 else 240
        else
         if x < 28 then if x < 26 then if x < 25 then 173 else 212 else if x < 27 then 162 else 175
         else if x < 30 then if x < 29 then 156 else 164 else if x < 31 then 114 else 192
      else
       if x < 0x30 then
        if x < 0x28 then
         if x < 36 then if x < 34 then if x < 33 then 183 else 253 else if x < 35 then 147 else 38
         else if x < 38 then if x < 37 then 54 else 63 else if x < 39 then 247 else 204
        else
         if x < 44 then if x < 42 then if x < 41 then 52 else 165 else if x < 43 then 229 else 241
         else if x < 46 then if x < 45 then 113 else 216 else if x < 47 then 49 else 21
       else
        if x < 0x38 then
         if x < 52 then if x < 50 then if x < 49 then 4 else 199 else if x < 51 then 35 else 195
         else if x < 54 then if x < 53 then 24 else 150 else if x < 55 then 5 else 154
        else
         if x < 60 then if x < 58 then if x < 57 then 7 else 18 else if x < 59 then 128 else 226
         else if x < 62 then if x < 61 then 235 else 39 else if x < 63 then 178 else 117
     else
      if x < 0x60 then
       if x < 0x50 then
        if x < 0x48 then
         if x < 68 then if x < 66 then if x < 65 then 9 else 131 else if x < 67 then 44 else 26
         else if x < 70 then if x < 69 then 27 else 110 else if x < 71 then 90 else 160
        else
         if x < 76 then if x < 74 then if x < 73 then 82 else 59 else if x < 75 then 214 else 179
         else if x < 78 then if x < 77 then 41 else 227 else if x < 79 then 47 else 132
       else
        if x < 0x58 then
         if x < 84 then if x < 82 then if x < 81 then 83 else 209 else if x < 83 then 0 else 237
         else if x < 86 then if x < 85 then 32 else 252 else if x < 87 then 177 else 91
        else
         if x < 92 then if x < 90 then if x < 89 then 106 else 203 else if x < 91 then 190 else 57
         else if x < 94 then if x < 93 then 74 else 76 else if x < 95 then 88 else 207
      else
       if x < 0x70 then
        if x < 0x68 then
         if x < 100 then if x < 98 then if x < 97 then 208 else 239 else if x < 99 then 170 else 251
         else if x < 102 then if x < 101 then 67 else 77 else if x < 103 then 51 else 133
        else
         if x < 108 then if x < 106 then if x < 105 then 69 else 249 else if x < 107 then 2 else 127
         else if x < 110 then if x < 109 then 80 else 60 else if x < 111 then 159 else 168
       else
        if x < 0x78 then
         if x < 116 then if x < 114 then if x < 113 then 81 else 163 else if x < 115 then 64 else 143
         else if x < 118 then if x < 117 then 146 else 157 else if x < 119 then 56 else 245
        else
         if x < 124 then if x < 122 then if x < 121 then 188 else 182 else if x < 123 then 218 else 33
         else if x < 126 then if x < 125 then 16 else 255 else if x < 127 then 243 else 210
    else
     if x < 0xC0 then
      if x < 0xA0 then
       if x < 0x90 then
        if x < 0x88 then
         if x < 132 then if x < 130 then if x < 129 then 205 else 12 else if x < 131 then 19 else 236
         else if x < 134 then if x < 133 then 95 else 151 else if x < 135 then 68 else 23
        else
         if x < 140 then if x < 138 then if x < 137 then 196 else 167 else if x < 139 then 126 else 61
         else if x < 142 then if x < 141 then 100 else 93 else if x < 143 then 25 else 115
       else
        if x < 0x98 then
         if x < 148 then if x < 146 then if x < 145 then 96 else 129 else if x < 147 then 79 else 220
         else if x < 150 then if x < 149 then 34 else 42 else if x < 151 then 144 else 136
        else
         if x < 156 then if x < 154 then if x < 153 then 70 else 238 else if x < 155 then 184 else 20
         else if x < 158 then if x < 157 then 222 else 94 else if x < 159 then 11 else 219
      else
       if x < 0xB0 then
        if x < 0xA8 then
         if x < 164 then if x < 162 then if x < 161 then 224 else 50 else if x < 163 then 58 else 10
         else if x < 166 then if x < 165 then 73 else 6 else if x < 167 then 36 else 92
        else
         if x < 172 then if x < 170 then if x < 169 then 194 else 211 else if x < 171 then 172 else 98
         else if x < 174 then if x < 173 then 145 else 149 else if x < 175 then 228 else 121
       else
        if x < 0xB8 then
         if x < 180 then if x < 178 then if x < 177 then 231 else 200 else if x < 179 then 55 else 109
         else if x < 182 then if x < 181 then 141 else 213 else if x < 183 then 78 else 169
        else
         if x < 188 then if x < 186 then if x < 185 then 108 else 86 else if x < 187 then 244 else 234
         else if x < 190 then if x < 189 then 101 else 122 else if x < 191 then 174 else 8
     else
      if x < 0xE0 then
       if x < 0xD0 then
        if x < 0xC8 then
         if x < 196 then if x < 194 then if x < 193 then 186 else 120 else if x < 195 then 37 else 46
         else if x < 198 then if x < 197 then 28 else 166 else if x < 199 then 180 else 198
        else
         if x < 204 then if x < 202 then if x < 201 then 232 else 221 else if x < 203 then 116 else 31
         else if x < 206 then if x < 205 then 75 else 189 else if x < 207 then 139 else 138
       else
        if x < 0xD8 then
         if x < 212 then if x < 210 then if x < 209 then 112 else 62 else if x < 211 then 181 else 102
         else if x < 214 then if x < 213 then 72 else 3 else if x < 215 then 246 else 14
        else
         if x < 220 then if x < 218 then if x < 217 then 97 else 53 else if x < 219 then 87 else 185
         else if x < 222 then if x < 221 then 134 else 193 else if x < 223 then 29 else 158
      else
       if x < 0xF0 then
        if x < 0xE8 then
         if x < 228 then if x < 226 then if x < 225 then 225 else 248 else if x < 227 then 152 else 17
         else if x < 230 then if x < 229 then 105 else 217 else if x < 231 then 142 else 148
        else
         if x < 236 then if x < 234 then if x < 233 then 155 else 30 else if x < 235 then 135 else 233
         else if x < 238 then if x < 237 then 206 else 85 else if x < 239 then 40 else 223
       else
        if x < 0xF8 then
         if x < 244 then if x < 242 then if x < 241 then 140 else 161 else if x < 243 then 137 else 13
         else if x < 246 then if x < 245 then 191 else 230 else if x < 247 then 66 else 104
        else
         if x < 252 then if x < 250 then if x < 249 then 65 else 153 else if x < 251 then 45 else 15
         else if x < 254 then if x < 253 then 176 else 84 else if x < 255 then 187 else 22
  }

  /** g_isbox: the inverse substitution box. */
  function InvSbox(x: bv8): bv8 {
    if x < 0x80 then
     if x < 0x40 then
      if x < 0x20 then
       if x < 0x10 then
        if x < 0x08 then
         if x < 4 then if x < 2 then if x < 1 then 82 else 9 else if x < 3 then 106 else 213
         else if x < 6 then if x < 5 then 48 else 54 else if x < 7 then 165 else 56
        else
         if x < 12 then if x < 10 then if x < 9 then 191 else 64 else if x < 11 then 163 else 158
         else if x < 14 then if x < 13 then 129 else 243 else if x < 15 then 215 else 251
       else
        if x < 0x18 then
         if x < 20 then if x < 18 then if x < 17 then 124 else 227 else if x < 19 then 57 else 130
         else if x < 22 then if x < 21 then 155 else 47 else if x < 23 then 255 else 135
        else
         if x < 28 then if x < 26 then if x < 25 then 52 else 142 else if x < 27 then 67 else 68
         else if x < 30 then if x < 29 then 196 else 222 else if x < 31 then 233 else 203
      else
       if x < 0x30 then
        if x < 0x28 then
         if x < 36 then if x < 34 then if x < 33 then 84 else 123 else if x < 35 then 148 else 50
         else if x < 38 then if x < 37 then 166 else 194 else if x < 39 then 35 else 61
        else
         if x < 44 then if x < 42 then if x < 41 then 238 else 76 else if x < 43 then 149 else 11
         else if x < 46 then if x < 45 then 66 else 250 else if x < 47 then 195 else 78
       else
        if x < 0x38 then
         if x < 52 then if x < 50 then if x < 49 then 8 else 46 else if x < 51 then 161 else 102
         else if x < 54 then if x < 53 then 40 else 217 else if x < 55 then 36 else 178
        else
         if x < 60 then if x < 58 then if x < 57 then 118 else 91 else if x < 59 then 162 else 73
         else if x < 62 then if x < 61 then 109 else 139 else if x < 63 then 209 else 37
     else
      if x < 0x60 then
       if x < 0x50 then
        if x < 0x48 then
         if x < 68 then if x < 66 then if x < 65 then 114 else 248 else if x < 67 then 246 else 100
         else if x < 70 then if x < 69 then 134 else 104 else if x < 71 then 152 else 22
        else
         if x < 76 then if x < 74 then if x < 73 then 212 else 164 else if x < 75 then 92 else 204
         else if x < 78 then if x < 77 then 93 else 101 else if x < 79 then 182 else 146
       else
        if x < 0x58 then
         if x < 84 then if x < 82 then if x < 81 then 108 else 112 else if x < 83 then 72 else 80
         else if x < 86 then if x < 85 then 253 else 237 else if x < 87 then 185 else 218
        else
         if x < 92 then if x < 90 then if x < 89 then 94 else 21 else if x < 91 then 70 else 87
         else if x < 94 then if x < 93 then 167 else 141 else if x < 95 then 157 else 132
      else
       if x < 0x70 then
        if x < 0x68 then
         if x < 100 then if x < 98 then if x < 97 then 144 else 216 else if x < 99 then 171 else 0
         else if x < 102 then if x < 101 then 140 else 188 else if x < 103 then 211 else 10
        else
         if x < 108 then if x < 106 then if x < 105 then 247 else 228 else if x < 107 then 88 else 5
         else if x < 110 then if x < 109 then 184 else 179 else if x < 111 then 69 else 6
       else
        if x < 0x78 then
         if x < 116 then if x < 114 then if x < 113 then 208 else 44 else if x < 115 then 30 else 143
         else if x < 118 then if x < 117 then 202 else 63 else if x < 119 then 15 else 2
        else
         if x < 124 then if x < 122 then if x < 121 then 193 else 175 else if x < 123 then 189 else 3
         else if x < 126 then if x < 125 then 1 else 19 else if x < 127 then 138 else 107
    else
     if x < 0xC0 then
      if x < 0xA0 then
       if x < 0x90 then
        if x < 0x88 then
         if x < 132 then if x < 130 then if x < 129 then 58 else 145 else if x < 131 then 17 else 65
         else if x < 134 then if x < 133 then 79 else 103 else if x < 135 then 220 else 234
        else
         if x < 140 then if x < 138 then if x < 137 then 151 else 242 else if x < 139 then 207 else 206
         else if x < 142 then if x < 141 then 240 else 180 else if x < 143 then 230 else 115
       else
        if x < 0x98 then
         if x < 148 then if x < 146 then if x < 145 then 150 else 172 else if x < 147 then 116 else 34
         else if x < 150 then if x < 149 then 231 else 173 else if x < 151 then 53 else 133
        else
         if x < 156 then if x < 154 then if x < 153 then 226 else 249 else if x < 155 then 55 else 232
         else if x < 158 then if x < 157 then 28 else 117 else if x < 159 then 223 else 110
      else
       if x < 0xB0 then
        if x < 0xA8 then
         if x < 164 then if x < 162 then if x < 161 then 71 else 241 else if x < 163 then 26 else 113
         else if x < 166 then if x < 165 then 29 else 41 else if x < 167 then 197 else 137
        else
         if x < 172 then if x < 170 then if x < 169 then 111 else 183 else if x < 171 then 98 else 14
         else if x < 174 then if x < 173 then 170 else 24 else if x < 175 then 190 else 27
       else
        if x < 0xB8 then
         if x < 180 then if x < 178 then if x < 177 then 252 else 86 else if x < 179 then 62 else 75
         else if x < 182 then if x < 181 then 198 else 210 else if x < 183 then 121 else 32
        else
         if x < 188 then if x < 186 then if x < 185 then 154 else 219 else if x < 187 then 192 else 254
         else if x < 190 then if x < 189 then 120 else 205 else if x < 191 then 90 else 244
     else
      if x < 0xE0 then
       if x < 0xD0 then
        if x < 0xC8 then
         if x < 196 then if x < 194 then if x < 193 then 31 else 221 else if x < 195 then 168 else 51
         else if x < 198 then if x < 197 then 136 else 7 else if x < 199 then 199 else 49
        else
         if x < 204 then if x < 202 then if x < 201 then 177 else 18 else if x < 203 then 16 else 89
         else if x < 206 then if x < 205 then 39 else 128 else if x < 207 then 236 else 95
       else
        if x < 0xD8 then
         if x < 212 then if x < 210 then if x < 209 then 96 else 81 else if x < 211 then 127 else 169
         else if x < 214 then if x < 213 then 25 else 181 else if x < 215 then 74 else 13
        else
         if x < 220 then if x < 218 then if x < 217 then 45 else 229 else if x < 219 then 122 else 159
         else if x < 222 then if x < 221 then 147 else 201 else if x < 223 then 156 else 239
      else
       if x < 0xF0 then
        if x < 0xE8 then
         if x < 228 then if x < 226 then if x < 225 then 160 else 224 else if x < 227 then 59 else 77
         else if x < 230 then if x < 229 then 174 else 42 else if x < 231 then 245 else 176
        else
         if x < 236 then if x < 234 then if x < 233 then 200 else 235 else if x < 235 then 187 else 60
         else if x < 238 then if x < 237 then 131 else 83 else if x < 239 then 153 else 97
       else
        if x < 0xF8 then
         if x < 244 then if x < 242 then if x < 241 then 23 else 43 else if x < 243 then 4 else 126
         else if x < 246 then if x < 245 then 186 else 119 else if x < 247 then 214 else 38
        else
         if x < 252 then if x < 250 then if x < 249 then 225 else 105 else if x < 251 then 20 else 99
         else if x < 254 then if x < 253 then 85 else 33 else if x < 255 then 12 else 125
  }

  /** g_logtable: discrete logarithms to the base 3; entry 0 is never used. */
  function LogTable(x: bv8): bv8 {
    if x < 0x80 then
     if x < 0x40 then
      if x < 0x20 then
       if x < 0x10 then
        if x < 0x08 then
         if x < 4 then if x < 2 then if x < 1 then 0 else 0 else if x < 3 then 25 else 1
         else if x < 6 then if x < 5 then 50 else 2 else if x < 7 then 26 else 198
        else
         if x < 12 then if x < 10 then if x < 9 then 75 else 199 else if x < 11 then 27 else 104
         else if x < 14 then if x < 13 then 51 else 238 else if x < 15 then 223 else 3
       else
        if x < 0x18 then
         if x < 20 then if x < 18 then if x < 17 then 100 else 4 else if x < 19 then 224 else 14
         else if x < 22 then if x < 21 then 52 else 141 else if x < 23 then 129 else 239
        else
         if x < 28 then if x < 26 then if x < 25 then 76 else 113 else if x < 27 then 8 else 200
         else if x < 30 then if x < 29 then 248 else 105 else if x < 31 then 28 else 193
      else
       if x < 0x30 then
        if x < 0x28 then
         if x < 36 then if x < 34 then if x < 33 then 125 else 194 else if x < 35 then 29 else 181
         else if x < 38 then if x < 37 then 249 else 185 else if x < 39 then 39 else 106
        else
         if x < 44 then if x < 42 then if x < 41 then 77 else 228 else if x < 43 then 166 else 114
         else if x < 46 then if x < 45 then 154 else 201 else if x < 47 then 9 else 120
       else
        if x < 0x38 then
         if x < 52 then if x < 50 then if x < 49 then 101 else 47 else if x < 51 then 138 else 5
         else if x < 54 then if x < 53 then 33 else 15 else if x < 55 then 225 else 36
        else
         if x < 60 then if x < 58 then if x < 57 then 18 else 240 else if x < 59 then 130 else 69
         else if x < 62 then if x < 61 then 53 else 147 else if x < 63 then 218 else 142
     else
      if x < 0x60 then
       if x < 0x50 then
        if x < 0x48 then
         if x < 68 then if x < 66 then if x < 65 then 150 else 143 else if x < 67 then 219 else 189
         else if x < 70 then if x < 69 then 54 else 208 else if x < 71 then 206 else 148
        else
         if x < 76 then if x < 74 then if x < 73 then 19 else 92 else if x < 75 then 210 else 241
         else if x < 78 then if x < 77 then 64 else 70 else if x < 79 then 131 else 56
       else
        if x < 0x58 then
         if x < 84 then if x < 82 then if x < 81 then 102 else 221 else if x < 83 then 253 else 48
         else if x < 86 then if x < 85 then 191 else 6 else if x < 87 then 139 else 98
        else
         if x < 92 then if x < 90 then if x < 89 then 179 else 37 else if x < 91 then 226 else 152
         else if x < 94 then if x < 93 then 34 else 136 else if x < 95 then 145 else 16
      else
       if x < 0x70 then
        if x < 0x68 then
         if x < 100 then if x < 98 then if x < 97 then 126 else 110 else if x < 99 then 72 else 195
         else if x < 102 then if x < 101 then 163 else 182 else if x < 103 then 30 else 66
        else
         if x < 108 then if x < 106 then if x < 105 then 58 else 107 else if x < 107 then 40 else 84
         else if x < 110 then if x < 109 then 250 else 133 else if x < 111 then 61 else 186
       else
        if x < 0x78 then
         if x < 116 then if x < 114 then if x < 113 then 43 else 121 else if x < 115 then 10 else 21
         else if x < 118 then if x < 117 then 155 else 159 else if x < 119 then 94 else 202
        else
         if x < 124 then if x < 122 then if x < 121 then 78 else 212 else if x < 123 then 172 else 229
         else if x < 126 then if x < 125 then 243 else 115 else if x < 127 then 167 else 87
    else
     if x < 0xC0 then
      if x < 0xA0 then
       if x < 0x90 then
        if x < 0x88 then
         if x < 132 then if x < 130 then if x < 129 then 175 else 88 else if x < 131 then 168 else 80
         else if x < 134 then if x < 133 then 244 else 234 else if x < 135 then 214 else 116
        else
         if x < 140 then if x < 138 then if x < 137 then 79 else 174 else if x < 139 then 233 else 213
         else if x < 142 then if x < 141 then 231 else 230 else if x < 143 then 173 else 232
       else
        if x < 0x98 then
         if x < 148 then if x < 146 then if x < 145 then 44 else 215 else if x < 147 then 117 else 122
         else if x < 150 then if x < 149 then 235 else 22 else if x < 151 then 11 else 245
        else
         if x < 156 then if x < 154 then if x < 153 then 89 else 203 else if x < 155 then 95 else 176
         else if x < 158 then if x < 157 then 156 else 169 else if x < 159 then 81 else 160
      else
       if x < 0xB0 then
        if x < 0xA8 then
         if x < 164 then if x < 162 then if x < 161 then 127 else 12 else if x < 163 then 246 else 111
         else if x < 166 then if x < 165 then 23 else 196 else if x < 167 then 73 else 236
        else
         if x < 172 then if x < 170 then if x < 169 then 216 else 67 else if x < 171 then 31 else 45
         else if x < 174 then if x < 173 then 164 else 118 else if x < 175 then 123 else 183
       else
        if x < 0xB8 then
         if x < 180 then if x < 178 then if x < 177 then 204 else 187 else if x < 179 then 62 else 90
         else if x < 182 then if x < 181 then 251 else 96 else if x < 183 then 177 else 134
        else
         if x < 188 then if x < 186 then if x < 185 then 59 else 82 else if x < 187 then 161 else 108
         else if x < 190 then if x < 189 then 170 else 85 else if x < 191 then 41 else 157
     else
      if x < 0xE0 then
       if x < 0xD0 then
        if x < 0xC8 then
         if x < 196 then if x < 194 then if x < 193 then 151 else 178 else if x < 195 then 135 else 144
         else if x < 198 then if x < 197 then 97 else 190 else if x < 199 then 220 else 252
        else
         if x < 204 then if x < 202 then if x < 201 then 188 else 149 else if x < 203 then 207 else 205
         else if x < 206 then if x < 205 then 55 else 63 else if x < 207 then 91 else 209
       else
        if x < 0xD8 then
         if x < 212 then if x < 210 then if x < 209 then 83 else 57 else if x < 211 then 132 else 60
         else if x < 214 then if x < 213 then 65 else 162 else if x < 215 then 109 else 71
        else
         if x < 220 then if x < 218 then if x < 217 then 20 else 42 else if x < 219 then 158 else 93
         else if x < 222 then if x < 221 then 86 else 242 else if x < 223 then 211 else 171
      else
       if x < 0xF0 then
        if x < 0xE8 then
         if x < 228 then if x < 226 then if x < 225 then 68 else 17 else if x < 227 then 146 else 217
         else if x < 230 then if x < 229 then 35 else 32 else if x < 231 then 46 else 137
        else
         if x < 236 then if x < 234 then if x < 233 then 180 else 124 else if x < 235 then 184 else 38
         else if x < 238 then if x < 237 then 119 else 153 else if x < 239 then 227 else 165
       else
        if x < 0xF8 then
         if x < 244 then if x < 242 then if x < 241 then 103 else 74 else if x < 243 then 237 else 222
         else if x < 246 then if x < 245 then 197 else 49 else if x < 247 then 254 else 24
        else
         if x < 252 then if x < 250 then if x < 249 then 13 else 99 else if x < 251 then 140 else 128
         else if x < 254 then if x < 253 then 192 else 247 else if x < 255 then 112 else 7
  }

  /** g_alogtable: powers of 3. */
  function AlogTable(x: bv8): bv8 {
    if x < 0x80 then
     if x < 0x40 then
      if x < 0x20 then
       if x < 0x10 then
        if x < 0x08 then
         if x < 4 then if x < 2 then if x < 1 then 1 else 3 else if x < 3 then 5 else 15
         else if x < 6 then if x < 5 then 17 else 51 else if x < 7 then 85 else 255
        else
         if x < 12 then if x < 10 then if x < 9 then 26 else 46 else if x < 11 then 114 else 150
         else if x < 14 then if x < 13 then 161 else 248 else if x < 15 then 19 else 53
       else
        if x < 0x18 then
         if x < 20 then if x < 18 then if x < 17 then 95 else 225 else if x < 19 then 56 else 72
         else if x < 22 then if x < 21 then 216 else 115 else if x < 23 then 149 else 164
        else
         if x < 28 then if x < 26 then if x < 25 then 247 else 2 else if x < 27 then 6 else 10
         else if x < 30 then if x < 29 then 30 else 34 else if x < 31 then 102 else 170
      else
       if x < 0x30 then
        if x < 0x28 then
         if x < 36 then if x < 34 then if x < 33 then 229 else 52 else if x < 35 then 92 else 228
         else if x < 38 then if x < 37 then 55 else 89 else if x < 39 then 235 else 38
        else
         if x < 44 then if x < 42 then if x < 41 then 106 else 190 else if x < 43 then 217 else 112
         else if x < 46 then if x < 45 then 144 else 171 else if x < 47 then 230 else 49
       else
        if x < 0x38 then
         if x < 52 then if x < 50 then if x < 49 then 83 else 245 else if x < 51 then 4 else 12
         else if x < 54 then if x < 53 then 20 else 60 else if x < 55 then 68 else 204
        else
         if x < 60 then if x < 58 then if x < 57 then 79 else 209 else if x < 59 then 104 else 184
         else if x < 62 then if x < 61 then 211 else 110 else if x < 63 then 178 else 205
     else
      if x < 0x60 then
       if x < 0x50 then
        if x < 0x48 then
         if x < 68 then if x < 66 then if x < 65 then 76 else 212 else if x < 67 then 103 else 169
         else if x < 70 then if x < 69 then 224 else 59 else if x < 71 then 77 else 215
        else
         if x < 76 then if x < 74 then if x < 73 then 98 else 166 else if x < 75 then 241 else 8
         else if x < 78 then if x < 77 then 24 else 40 else if x < 79 then 120 else 136
       else
        if x < 0x58 then
         if x < 84 then if x < 82 then if x < 81 then 131 else 158 else if x < 83 then 185 else 208
         else if x < 86 then if x < 85 then 107 else 189 else if x < 87 then 220 else 127
        else
         if x < 92 then if x < 90 then if x < 89 then 129 else 152 else if x < 91 then 179 else 206
         else if x < 94 then if x < 93 then 73 else 219 else if x < 95 then 118 else 154
      else
       if x < 0x70 then
        if x < 0x68 then
         if x < 100 then if x < 98 then if x < 97 then 181 else 196 else if x < 99 then 87 else 249
         else if x < 102 then if x < 101 then 16 else 48 else if x < 103 then 80 else 240
        else
         if x < 108 then if x < 106 then if x < 105 then 11 else 29 else if x < 107 then 39 else 105
         else if x < 110 then if x < 109 then 187 else 214 else if x < 111 then 97 else 163
       else
        if x < 0x78 then
         if x < 116 then if x < 114 then if x < 113 then 254 else 25 else if x < 115 then 43 else 125
         else if x < 118 then if x < 117 then 135 else 146 else if x < 119 then 173 else 236
        else
         if x < 124 then if x < 122 then if x < 121 then 47 else 113 else if x < 123 then 147 else 174
         else if x < 126 then if x < 125 then 233 else 32 else if x < 127 then 96 else 160
    else
     if x < 0xC0 then
      if x < 0xA0 then
       if x < 0x90 then
        if x < 0x88 then
         if x < 132 then if x < 130 then if x < 129 then 251 else 22 else if x < 131 then 58 else 78
         else if x < 134 then if x < 133 then 210 else 109 else if x < 135 then 183 else 194
        else
         if x < 140 then if x < 138 then if x < 137 then 93 else 231 else if x < 139 then 50 else 86
         else if x < 142 then if x < 141 then 250 else 21 else if x < 143 then 63 else 65
       else
        if x < 0x98 then
         if x < 148 then if x < 146 then if x < 145 then 195 else 94 else if x < 147 then 226 else 61
         else if x < 150 then if x < 149 then 71 else 201 else if x < 151 then 64 else 192
        else
         if x < 156 then if x < 154 then if x < 153 then 91 else 237 else if x < 155 then 44 else 116
         else if x < 158 then if x < 157 then 156 else 191 else if x < 159 then 218 else 117
      else
       if x < 0xB0 then
        if x < 0xA8 then
         if x < 164 then if x < 162 then if x < 161 then 159 else 186 else if x < 163 then 213 else 100
         else if x < 166 then if x < 165 then 172 else 239 else if x < 167 then 42 else 126
        else
         if x < 172 then if x < 170 then if x < 169 then 130 else 157 else if x < 171 then 188 else 223
         else if x < 174 then if x < 173 then 122 else 142 else if x < 175 then 137 else 128
       else
        if x < 0xB8 then
         if x < 180 then if x < 178 then if x < 177 then 155 else 182 else if x < 179 then 193 else 88
         else if x < 182 then if x < 181 then 232 else 35 else if x < 183 then 101 else 175
        else
         if x < 188 then if x < 186 then if x < 185 then 234 else 37 else if x < 187 then 111 else 177
         else if x < 190 then if x < 189 then 200 else 67 else if x < 191 then 197 else 84
     else
      if x < 0xE0 then
       if x < 0xD0 then
        if x < 0xC8 then
         if x < 196 then if x < 194 then if x < 193 then 252 else 31 else if x < 195 then 33 else 99
         else if x < 198 then if x < 197 then 165 else 244 else if x < 199 then 7 else 9
        else
         if x < 204 then if x < 202 then if x < 201 then 27 else 45 else if x < 203 then 119 else 153
         else if x < 206 then if x < 205 then 176 else 203 else if x < 207 then 70 else 202
       else
        if x < 0xD8 then
         if x < 212 then if x < 210 then if x < 209 then 69 else 207 else if x < 211 then 74 else 222
         else if x < 214 then if x < 213 then 121 else 139 else if x < 215 then 134 else 145
        else
         if x < 220 then if x < 218 then if x < 217 then 168 else 227 else if x < 219 then 62 else 66
         else if x < 222 then if x < 221 then 198 else 81 else if x < 223 then 243 else 14
      else
       if x < 0xF0 then
        if x < 0xE8 then
         if x < 228 then if x < 226 then if x < 225 then 18 else 54 else if x < 227 then 90 else 238
         else if x < 230 then if x < 229 then 41 else 123 else if x < 231 then 141 else 140
        else
         if x < 236 then if x < 234 then if x < 233 then 143 else 138 else if x < 235 then 133 else 148
         else if x < 238 then if x < 237 then 167 else 242 else if x < 239 then 13 else 23
       else
        if x < 0xF8 then
         if x < 244 then if x < 242 then if x < 241 then 57 else 75 else if x < 243 then 221 else 124
         else if x < 246 then if x < 245 then 132 else 151 else if x < 247 then 162 else 253
        else
         if x < 252 then if x < 250 then if x < 249 then 28 else 36 else if x < 251 then 108 else 180
         else if x < 254 then if x < 253 then 199 else 82 else if x < 255 then 246 else 1
  }

  /** g_dtbl: substitution and MixColumns in one lookup. */
  function DTable(x: bv8): bv32 {
    if x < 0x80 then
     if x < 0x40 then
      if x < 0x20 then
       if x < 0x10 then
        if x < 0x08 then
         if x < 4 then if x < 2 then if x < 1 then 0xA56363C6 else 0x847C7CF8 else if x < 3 then 0x997777EE else 0x8D7B7BF6
         else if x < 6 then if x < 5 then 0x0DF2F2FF else 0xBD6B6BD6 else if x < 7 then 0xB16F6FDE else 0x54C5C591
        else
         if x < 12 then if x < 10 then if x < 9 then 0x50303060 else 0x03010102 else if x < 11 then 0xA96767CE else 0x7D2B2B56
         else if x < 14 then if x < 13 then 0x19FEFEE7 else 0x62D7D7B5 else if x < 15 then 0xE6ABAB4D else 0x9A7676EC
       else
        if x < 0x18 then
         if x < 20 then if x < 18 then if x < 17 then 0x45CACA8F else 0x9D82821F else if x < 19 then 0x40C9C989 else 0x877D7DFA
         else if x < 22 then if x < 21 then 0x15FAFAEF else 0xEB5959B2 else if x < 23 then 0xC947478E else 0x0BF0F0FB
        else
         if x < 28 then if x < 26 then if x < 25 then 0xECADAD41 else 0x67D4D4B3 else if x < 27 then 0xFDA2A25F else 0xEAAFAF45
         else if x < 30 then if x < 29 then 0xBF9C9C23 else 0xF7A4A453 else if x < 31 then 0x967272E4 else 0x5BC0C09B
      else
       if x < 0x30 then
        if x < 0x28 then
         if x < 36 then if x < 34 then if x < 33 then 0xC2B7B775 else 0x1CFDFDE1 else if x < 35 then 0xAE93933D else 0x6A26264C
         else if x < 38 then if x < 37 then 0x5A36366C else 0x413F3F7E else if x < 39 then 0x02F7F7F5 else 0x4FCCCC83
        else
         if x < 44 then if x < 42 then if x < 41 then 0x5C343468 else 0xF4A5A551 else if x < 43 then 0x34E5E5D1 else 0x08F1F1F9
         else if x < 46 then if x < 45 then 0x937171E2 else 0x73D8D8AB else if x < 47 then 0x53313162 else 0x3F15152A
       else
        if x < 0x38 then
         if x < 52 then if x < 50 then if x < 49 then 0x0C040408 else 0x52C7C795 else if x < 51 then 0x65232346 else 0x5EC3C39D
         else if x < 54 then if x < 53 then 0x28181830 else 0xA1969637 else if x < 55 then 0x0F05050A else 0xB59A9A2F
        else
         if x < 60 then if x < 58 then if x < 57 then 0x0907070E else 0x36121224 else if x < 59 then 0x9B80801B else 0x3DE2E2DF
         else if x < 62 then if x < 61 then 0x26EBEBCD else 0x6927274E else if x < 63 then 0xCDB2B27F else 0x9F7575EA
     else
      if x < 0x60 then
       if x < 0x50 then
        if x < 0x48 then
         if x < 68 then if x < 66 then if x < 65 then 0x1B090912 else 0x9E83831D else if x < 67 then 0x742C2C58 else 0x2E1A1A34
         else if x < 70 then if x < 69 then 0x2D1B1B36 else 0xB26E6EDC else if x < 71 then 0xEE5A5AB4 else 0xFBA0A05B
        else
         if x < 76 then if x < 74 then if x < 73 then 0xF65252A4 else 0x4D3B3B76 else if x < 75 then 0x61D6D6B7 else 0xCEB3B37D
         else if x < 78 then if x < 77 then 0x7B292952 else 0x3EE3E3DD else if x < 79 then 0x712F2F5E else 0x97848413
       else
        if x < 0x58 then
         if x < 84 then if x < 82 then if x < 81 then 0xF55353A6 else 0x68D1D1B9 else if x < 83 then 0x00000000 else 0x2CEDEDC1
         else if x < 86 then if x < 85 then 0x60202040 else 0x1FFCFCE3 else if x < 87 then 0xC8B1B179 else 0xED5B5BB6
        else
         if x < 92 then if x < 90 then if x < 89 then 0xBE6A6AD4 else 0x46CBCB8D else if x < 91 then 0xD9BEBE67 else 0x4B393972
         else if x < 94 then if x < 93 then 0xDE4A4A94 else 0xD44C4C98 else if x < 95 then 0xE85858B0 else 0x4ACFCF85
      else
       if x < 0x70 then
        if x < 0x68 then
         if x < 100 then if x < 98 then if x < 97 then 0x6BD0D0BB else 0x2AEFEFC5 else if x < 99 then 0xE5AAAA4F else 0x16FBFBED
         else if x < 102 then if x < 101 then 0xC5434386 else 0xD74D4D9A else if x < 103 then 0x55333366 else 0x94858511
        else
         if x < 108 then if x < 106 then if x < 105 then 0xCF45458A else 0x10F9F9E9 else if x < 107 then 0x06020204 else 0x817F7FFE
         else if x < 110 then if x < 109 then 0xF05050A0 else 0x443C3C78 else if x < 111 then 0xBA9F9F25 else 0xE3A8A84B
       else
        if x < 0x78 then
         if x < 116 then if x < 114 then if x < 113 then 0xF35151A2 else 0xFEA3A35D else if x < 115 then 0xC0404080 else 0x8A8F8F05
         else if x < 118 then if x < 117 then 0xAD92923F else 0xBC9D9D21 else if x < 119 then 0x48383870 else 0x04F5F5F1
        else
         if x < 124 then if x < 122 then if x < 121 then 0xDFBCBC63 else 0xC1B6B677 else if x < 123 then 0x75DADAAF else 0x63212142
         else if x < 126 then if x < 125 then 0x30101020 else 0x1AFFFFE5 else if x < 127 then 0x0EF3F3FD else 0x6DD2D2BF
    else
     if x < 0xC0 then
      if x < 0xA0 then
       if x < 0x90 then
        if x < 0x88 then
         if x < 132 then if x < 130 then if x < 129 then 0x4CCDCD81 else 0x140C0C18 else if x < 131 then 0x35131326 else 0x2FECECC3
         else if x < 134 then if x < 133 then 0xE15F5FBE else 0xA2979735 else if x < 135 then 0xCC444488 else 0x3917172E
        else
         if x < 140 then if x < 138 then if x < 137 then 0x57C4C493 else 0xF2A7A755 else if x < 139 then 0x827E7EFC else 0x473D3D7A
         else if x < 142 then if x < 141 then 0xAC6464C8 else 0xE75D5DBA else if x < 143 then 0x2B191932 else 0x957373E6
       else
        if x < 0x98 then
         if x < 148 then if x < 146 then if x < 145 then 0xA06060C0 else 0x98818119 else if x < 147 then 0xD14F4F9E else 0x7FDCDCA3
         else if x < 150 then if x < 149 then 0x66222244 else 0x7E2A2A54 else if x < 151 then 0xAB90903B else 0x8388880B
        else
         if x < 156 then if x < 154 then if x < 153 then 0xCA46468C else 0x29EEEEC7 else if x < 155 then 0xD3B8B86B else 0x3C141428
         else if x < 158 then if x < 157 then 0x79DEDEA7 else 0xE25E5EBC else if x < 159 then 0x1D0B0B16 else 0x76DBDBAD
      else
       if x < 0xB0 then
        if x < 0xA8 then
         if x < 164 then if x < 162 then if x < 161 then 0x3BE0E0DB else 0x56323264 else if x < 163 then 0x4E3A3A74 else 0x1E0A0A14
         else if x < 166 then if x < 165 then 0xDB494992 else 0x0A06060C else if x < 167 then 0x6C242448 else 0xE45C5CB8
        else
         if x < 172 then if x < 170 then if x < 169 then 0x5DC2C29F else 0x6ED3D3BD else if x < 171 then 0xEFACAC43 else 0xA66262C4
         else if x < 174 then if x < 173 then 0xA8919139 else 0xA4959531 else if x < 175 then 0x37E4E4D3 else 0x8B7979F2
       else
        if x < 0xB8 then
         if x < 180 then if x < 178 then if x < 177 then 0x32E7E7D5 else 0x43C8C88B else if x < 179 then 0x5937376E else 0xB76D6DDA
         else if x < 182 then if x < 181 then 0x8C8D8D01 else 0x64D5D5B1 else if x < 183 then 0xD24E4E9C else 0xE0A9A949
        else
         if x < 188 then if x < 186 then if x < 185 then 0xB46C6CD8 else 0xFA5656AC else if x < 187 then 0x07F4F4F3 else 0x25EAEACF
         else if x < 190 then if x < 189 then 0xAF6565CA else 0x8E7A7AF4 else if x < 191 then 0xE9AEAE47 else 0x18080810
     else
      if x < 0xE0 then
       if x < 0xD0 then
        if x < 0xC8 then
         if x < 196 then if x < 194 then if x < 193 then 0xD5BABA6F else 0x887878F0 else if x < 195 then 0x6F25254A else 0x722E2E5C
         else if x < 198 then if x < 197 then 0x241C1C38 else 0xF1A6A657 else if x < 199 then 0xC7B4B473 else 0x51C6C697
        else
         if x < 204 then if x < 202 then if x < 201 then 0x23E8E8CB else 0x7CDDDDA1 else if x < 203 then 0x9C7474E8 else 0x211F1F3E
         else if x < 206 then if x < 205 then 0xDD4B4B96 else 0xDCBDBD61 else if x < 207 then 0x868B8B0D else 0x858A8A0F
       else
        if x < 0xD8 then
         if x < 212 then if x < 210 then if x < 209 then 0x907070E0 else 0x423E3E7C else if x < 211 then 0xC4B5B571 else 0xAA6666CC
         else if x < 214 then if x < 213 then 0xD8484890 else 0x05030306 else if x < 215 then 0x01F6F6F7 else 0x120E0E1C
        else
         if x < 220 then if x < 218 then if x < 217 then 0xA36161C2 else 0x5F35356A else if x < 219 then 0xF95757AE else 0xD0B9B969
         else if x < 222 then if x < 221 then 0x91868617 else 0x58C1C199 else if x < 223 then 0x271D1D3A else 0xB99E9E27
      else
       if x < 0xF0 then
        if x < 0xE8 then
         if x < 228 then if x < 226 then if x < 225 then 0x38E1E1D9 else 0x13F8F8EB else if x < 227 then 0xB398982B else 0x33111122
         else if x < 230 then if x < 229 then 0xBB6969D2 else 0x70D9D9A9 else if x < 231 then 0x898E8E07 else 0xA7949433
        else
         if x < 236 then if x < 234 then if x < 233 then 0xB69B9B2D else 0x221E1E3C else if x < 235 then 0x92878715 else 0x20E9E9C9
         else if x < 238 then if x < 237 then 0x49CECE87 else 0xFF5555AA else if x < 239 then 0x78282850 else 0x7ADFDFA5
       else
        if x < 0xF8 then
         if x < 244 then if x < 242 then if x < 241 then 0x8F8C8C03 else 0xF8A1A159 else if x < 243 then 0x80898909 else 0x170D0D1A
         else if x < 246 then if x < 245 then 0xDABFBF65 else 0x31E6E6D7 else if x < 247 then 0xC6424284 else 0xB86868D0
        else
         if x < 252 then if x < 250 then if x < 249 then 0xC3414182 else 0xB0999929 else if x < 251 then 0x772D2D5A else 0x110F0F1E
         else if x < 254 then if x < 253 then 0xCBB0B07B else 0xFC5454A8 else if x < 255 then 0xD6BBBB6D else 0x3A16162C
  }

  /** g_itbl: inverse substitution and InvMixColumns in one lookup. */
  function ITable(x: bv8): bv32 {
    if x < 0x80 then
     if x < 0x40 then
      if x < 0x20 then
       if x < 0x10 then
        if x < 0x08 then
         if x < 4 then if x < 2 then if x < 1 then 0x50A7F451 else 0x5365417E else if x < 3 then 0xC3A4171A else 0x965E273A
         else if x < 6 then if x < 5 then 0xCB6BAB3B else 0xF1459D1F else if x < 7 then 0xAB58FAAC else 0x9303E34B
        else
         if x < 12 then if x < 10 then if x < 9 then 0x55FA3020 else 0xF66D76AD else if x < 11 then 0x9176CC88 else 0x254C02F5
         else if x < 14 then if x < 13 then 0xFCD7E54F else 0xD7CB2AC5 else if x < 15 then 0x80443526 else 0x8FA362B5
       else
        if x < 0x18 then
         if x < 20 then if x < 18 then if x < 17 then 0x495AB1DE else 0x671BBA25 else if x < 19 then 0x980EEA45 else 0xE1C0FE5D
         else if x < 22 then if x < 21 then 0x02752FC3 else 0x12F04C81 else if x < 23 then 0xA397468D else 0xC6F9D36B
        else
         if x < 28 then if x < 26 then if x < 25 then 0xE75F8F03 else 0x959C9215 else if x < 27 then 0xEB7A6DBF else 0xDA595295
         else if x < 30 then if x < 29 then 0x2D83BED4 else 0xD3217458 else if x < 31 then 0x2969E049 else 0x44C8C98E
      else
       if x < 0x30 then
        if x < 0x28 then
         if x < 36 then if x < 34 then if x < 33 then 0x6A89C275 else 0x78798EF4 else if x < 35 then 0x6B3E5899 else 0xDD71B927
         else if x < 38 then if x < 37 then 0xB64FE1BE else 0x17AD88F0 else if x < 39 then 0x66AC20C9 else 0xB43ACE7D
        else
         if x < 44 then if x < 42 then if x < 41 then 0x184ADF63 else 0x82311AE5 else if x < 43 then 0x60335197 else 0x457F5362
         else if x < 46 then if x < 45 then 0xE07764B1 else 0x84AE6BBB else if x < 47 then 0x1CA081FE else 0x942B08F9
       else
        if x < 0x38 then
         if x < 52 then if x < 50 then if x < 49 then 0x58684870 else 0x19FD458F else if x < 51 then 0x876CDE94 else 0xB7F87B52
         else if x < 54 then if x < 53 then 0x23D373AB else 0xE2024B72 else if x < 55 then 0x578F1FE3 else 0x2AAB5566
        else
         if x < 60 then if x < 58 then if x < 57 then 0x0728EBB2 else 0x03C2B52F else if x < 59 then 0x9A7BC586 else 0xA50837D3
         else if x < 62 then if x < 61 then 0xF2872830 else 0xB2A5BF23 else if x < 63 then 0xBA6A0302 else 0x5C8216ED
     else
      if x < 0x60 then
       if x < 0x50 then
        if x < 0x48 then
         if x < 68 then if x < 66 then if x < 65 then 0x2B1CCF8A else 0x92B479A7 else if x < 67 then 0xF0F207F3 else 0xA1E2694E
         else if x < 70 then if x < 69 then 0xCDF4DA65 else 0xD5BE0506 else if x < 71 then 0x1F6234D1 else 0x8AFEA6C4
        else
         if x < 76 then if x < 74 then if x < 73 then 0x9D532E34 else 0xA055F3A2 else if x < 75 then 0x32E18A05 else 0x75EBF6A4
         else if x < 78 then if x < 77 then 0x39EC830B else 0xAAEF6040 else if x < 79 then 0x069F715E else 0x51106EBD
       else
        if x < 0x58 then
         if x < 84 then if x < 82 then if x < 81 then 0xF98A213E else 0x3D06DD96 else if x < 83 then 0xAE053EDD else 0x46BDE64D
         else if x < 86 then if x < 85 then 0xB58D5491 else 0x055DC471 else if x < 87 then 0x6FD40604 else 0xFF155060
        else
         if x < 92 then if x < 90 then if x < 89 then 0x24FB9819 else 0x97E9BDD6 else if x < 91 then 0xCC434089 else 0x779ED967
         else if x < 94 then if x < 93 then 0xBD42E8B0 else 0x888B8907 else if x < 95 then 0x385B19E7 else 0xDBEEC879
      else
       if x < 0x70 then
        if x < 0x68 then
         if x < 100 then if x < 98 then if x < 97 then 0x470A7CA1 else 0xE90F427C else if x < 99 then 0xC91E84F8 else 0x00000000
         else if x < 102 then if x < 101 then 0x83868009 else 0x48ED2B32 else if x < 103 then 0xAC70111E else 0x4E725A6C
        else
         if x < 108 then if x < 106 then if x < 105 then 0xFBFF0EFD else 0x5638850F else if x < 107 then 0x1ED5AE3D else 0x27392D36
         else if x < 110 then if x < 109 then 0x64D90F0A else 0x21A65C68 else if x < 111 then 0xD1545B9B else 0x3A2E3624
       else
        if x < 0x78 then
         if x < 116 then if x < 114 then if x < 113 then 0xB1670A0C else 0x0FE75793 else if x < 115 then 0xD296EEB4 else 0x9E919B1B
         else if x < 118 then if x < 117 then 0x4FC5C080 else 0xA220DC61 else if x < 119 then 0x694B775A else 0x161A121C
        else
         if x < 124 then if x < 122 then if x < 121 then 0x0ABA93E2 else 0xE52AA0C0 else if x < 123 then 0x43E0223C else 0x1D171B12
         else if x < 126 then if x < 125 then 0x0B0D090E else 0xADC78BF2 else if x < 127 then 0xB9A8B62D else 0xC8A91E14
    else
     if x < 0xC0 then
      if x < 0xA0 then
       if x < 0x90 then
        if x < 0x88 then
         if x < 132 then if x < 130 then if x < 129 then 0x8519F157 else 0x4C0775AF else if x < 131 then 0xBBDD99EE else 0xFD607FA3
         else if x < 134 then if x < 133 then 0x9F2601F7 else 0xBCF5725C else if x < 135 then 0xC53B6644 else 0x347EFB5B
        else
         if x < 140 then if x < 138 then if x < 137 then 0x7629438B else 0xDCC623CB else if x < 139 then 0x68FCEDB6 else 0x63F1E4B8
         else if x < 142 then if x < 141 then 0xCADC31D7 else 0x10856342 else if x < 143 then 0x40229713 else 0x2011C684
       else
        if x < 0x98 then
         if x < 148 then if x < 146 then if x < 145 then 0x7D244A85 else 0xF83DBBD2 else if x < 147 then 0x1132F9AE else 0x6DA129C7
         else if x < 150 then if x < 149 then 0x4B2F9E1D else 0xF330B2DC else if x < 151 then 0xEC52860D else 0xD0E3C177
        else
         if x < 156 then if x < 154 then if x < 153 then 0x6C16B32B else 0x99B970A9 else if x < 155 then 0xFA489411 else 0x2264E947
         else if x < 158 then if x < 157 then 0xC48CFCA8 else 0x1A3FF0A0 else if x < 159 then 0xD82C7D56 else 0xEF903322
      else
       if x < 0xB0 then
        if x < 0xA8 then
         if x < 164 then if x < 162 then if x < 161 then 0xC74E4987 else 0xC1D138D9 else if x < 163 then 0xFEA2CA8C else 0x360BD498
         else if x < 166 then if x < 165 then 0xCF81F5A6 else 0x28DE7AA5 else if x < 167 then 0x268EB7DA else 0xA4BFAD3F
        else
         if x < 172 then if x < 170 then if x < 169 then 0xE49D3A2C else 0x0D927850 else if x < 171 then 0x9BCC5F6A else 0x62467E54
         else if x < 174 then if x < 173 then 0xC2138DF6 else 0xE8B8D890 else if x < 175 then 0x5EF7392E else 0xF5AFC382
       else
        if x < 0xB8 then
         if x < 180 then if x < 178 then if x < 177 then 0xBE805D9F else 0x7C93D069 else if x < 179 then 0xA92DD56F else 0xB31225CF
         else if x < 182 then if x < 181 then 0x3B99ACC8 else 0xA77D1810 else if x < 183 then 0x6E639CE8 else 0x7BBB3BDB
        else
         if x < 188 then if x < 186 then if x < 185 then 0x097826CD else 0xF418596E else if x < 187 then 0x01B79AEC else 0xA89A4F83
         else if x < 190 then if x < 189 then 0x656E95E6 else 0x7EE6FFAA else if x < 191 then 0x08CFBC21 else 0xE6E815EF
     else
      if x < 0xE0 then
       if x < 0xD0 then
        if x < 0xC8 then
         if x < 196 then if x < 194 then if x < 193 then 0xD99BE7BA else 0xCE366F4A else if x < 195 then 0xD4099FEA else 0xD67CB029
         else if x < 198 then if x < 197 then 0xAFB2A431 else 0x31233F2A else if x < 199 then 0x3094A5C6 else 0xC066A235
        else
         if x < 204 then if x < 202 then if x < 201 then 0x37BC4E74 else 0xA6CA82FC else if x < 203 then 0xB0D090E0 else 0x15D8A733
         else if x < 206 then if x < 205 then 0x4A9804F1 else 0xF7DAEC41 else if x < 207 then 0x0E50CD7F else 0x2FF69117
       else
        if x < 0xD8 then
         if x < 212 then if x < 210 then if x < 209 then 0x8DD64D76 else 0x4DB0EF43 else if x < 211 then 0x544DAACC else 0xDF0496E4
         else if x < 214 then if x < 213 then 0xE3B5D19E else 0x1B886A4C else if x < 215 then 0xB81F2CC1 else 0x7F516546
        else
         if x < 220 then if x < 218 then if x < 217 then 0x04EA5E9D else 0x5D358C01 else if x < 219 then 0x737487FA else 0x2E410BFB
         else if x < 222 then if x < 221 then 0x5A1D67B3 else 0x52D2DB92 else if x < 223 then 0x335610E9 else 0x1347D66D
      else
       if x < 0xF0 then
        if x < 0xE8 then
         if x < 228 then if x < 226 then if x < 225 then 0x8C61D79A else 0x7A0CA137 else if x < 227 then 0x8E14F859 else 0x893C13EB
         else if x < 230 then if x < 229 then 0xEE27A9CE else 0x35C961B7 else if x < 231 then 0xEDE51CE1 else 0x3CB1477A
        else
         if x < 236 then if x < 234 then if x < 233 then 0x59DFD29C else 0x3F73F255 else if x < 235 then 0x79CE1418 else 0xBF37C773
         else if x < 238 then if x < 237 then 0xEACDF753 else 0x5BAAFD5F else if x < 239 then 0x146F3DDF else 0x86DB4478
       else
        if x < 0xF8 then
         if x < 244 then if x < 242 then if x < 241 then 0x81F3AFCA else 0x3EC468B9 else if x < 243 then 0x2C342438 else 0x5F40A3C2
         else if x < 246 then if x < 245 then 0x72C31D16 else 0x0C25E2BC else if x < 247 then 0x8B493C28 else 0x41950DFF
        else
         if x < 252 then if x < 250 then if x < 249 then 0x7101A839 else 0xDEB30C08 else if x < 251 then 0x9CE4B4D8 else 0x90C15664
         else if x < 254 then if x < 253 then 0x6184CB7B else 0x70B632D5 else if x < 255 then 0x745C6C48 else 0x4257B8D0
  }
}
