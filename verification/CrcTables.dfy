/**
 The lookup tables of crc16.c, crc32.c and myCrc.c, as functions from the index byte to the
 entry, with the entries in index order.
 */
module CrcTables {
  /** crc16tab: polynomial 0x1021, high bit first. */
  function Crc16Tab(x: bv8): bv16 {
    if x < 0x80 then
     if x < 0x40 then
      if x < 0x20 then
       if x < 0x10 then
        if x < 0x08 then
         if x < 4 then if x < 2 then if x < 1 then 0x0000 else 0x1021 else if x < 3 then 0x2042 else 0x3063
         else if x < 6 then if x < 5 then 0x4084 else 0x50a5 else if x < 7 then 0x60c6 else 0x70e7
        else
         if x < 12 then if x < 10 then if x < 9 then 0x8108 else 0x9129 else if x < 11 then 0xa14a else 0xb16b
         else if x < 14 then if x < 13 then 0xc18c else 0xd1ad else if x < 15 then 0xe1ce else 0xf1ef
       else
        if x < 0x18 then
         if x < 20 then if x < 18 then if x < 17 then 0x1231 else 0x0210 else if x < 19 then 0x3273 else 0x2252
         else if x < 22 then if x < 21 then 0x52b5 else 0x4294 else if x < 23 then 0x72f7 else 0x62d6
        else
         if x < 28 then if x < 26 then if x < 25 then 0x9339 else 0x8318 else if x < 27 then 0xb37b else 0xa35a
         else if x < 30 then if x < 29 then 0xd3bd else 0xc39c else if x < 31 then 0xf3ff else 0xe3de
      else
       if x < 0x30 then
        if x < 0x28 then
         if x < 36 then if x < 34 then if x < 33 then 0x2462 else 0x3443 else if x < 35 then 0x0420 else 0x1401
         else if x < 38 then if x < 37 then 0x64e6 else 0x74c7 else if x < 39 then 0x44a4 else 0x5485
        else
         if x < 44 then if x < 42 then if x < 41 then 0xa56a else 0xb54b else if x < 43 then 0x8528 else 0x9509
         else if x < 46 then if x < 45 then 0xe5ee else 0xf5cf else if x < 47 then 0xc5ac else 0xd58d
       else
        if x < 0x38 then
         if x < 52 then if x < 50 then if x < 49 then 0x3653 else 0x2672 else if x < 51 then 0x1611 else 0x0630
         else if x < 54 then if x < 53 then 0x76d7 else 0x66f6 else if x < 55 then 0x5695 else 0x46b4
        else
         if x < 60 then if x < 58 then if x < 57 then 0xb75b else 0xa77a else if x < 59 then 0x9719 else 0x8738
         else if x < 62 then if x < 61 then 0xf7df else 0xe7fe else if x < 63 then 0xd79d else 0xc7bc
     else
      if x < 0x60 then
       if x < 0x50 then
        if x < 0x48 then
         if x < 68 then if x < 66 then if x < 65 then 0x48c4 else 0x58e5 else if x < 67 then 0x6886 else 0x78a7
         else if x < 70 then if x < 69 then 0x0840 else 0x1861 else if x < 71 then 0x2802 else 0x3823
        else
         if x < 76 then if x < 74 then if x < 73 then 0xc9cc else 0xd9ed else if x < 75 then 0xe98e else 0xf9af
         else if x < 78 then if x < 77 then 0x8948 else 0x9969 else if x < 79 then 0xa90a else 0xb92b
       else
        if x < 0x58 then
         if x < 84 then if x < 82 then if x < 81 then 0x5af5 else 0x4ad4 else if x < 83 then 0x7ab7 else 0x6a96
         else if x < 86 then if x < 85 then 0x1a71 else 0x0a50 else if x < 87 then 0x3a33 else 0x2a12
        else
         if x < 92 then if x < 90 then if x < 89 then 0xdbfd else 0xcbdc else if x < 91 then 0xfbbf else 0xeb9e
         else if x < 94 then if x < 93 then 0x9b79 else 0x8b58 else if x < 95 then 0xbb3b else 0xab1a
      else
       if x < 0x70 then
        if x < 0x68 then
         if x < 100 then if x < 98 then if x < 97 then 0x6ca6 else 0x7c87 else if x < 99 then 0x4ce4 else 0x5cc5
         else if x < 102 then if x < 101 then 0x2c22 else 0x3c03 else if x < 103 then 0x0c60 else 0x1c41
        else
         if x < 108 then if x < 106 then if x < 105 then 0xedae else 0xfd8f else if x < 107 then 0xcdec else 0xddcd
         else if x < 110 then if x < 109 then 0xad2a else 0xbd0b else if x < 111 then 0x8d68 else 0x9d49
       else
        if x < 0x78 then
         if x < 116 then if x < 114 then if x < 113 then 0x7e97 else 0x6eb6 else if x < 115 then 0x5ed5 else 0x4ef4
         else if x < 118 then if x < 117 then 0x3e13 else 0x2e32 else if x < 119 then 0x1e51 else 0x0e70
        else
         if x < 124 then if x < 122 then if x < 121 then 0xff9f else 0xefbe else if x < 123 then 0xdfdd else 0xcffc
         else if x < 126 then if x < 125 then 0xbf1b else 0xaf3a else if x < 127 then 0x9f59 else 0x8f78
    else
     if x < 0xC0 then
      if x < 0xA0 then
       if x < 0x90 then
        if x < 0x88 then
         if x < 132 then if x < 130 then if x < 129 then 0x9188 else 0x81a9 else if x < 131 then 0xb1ca else 0xa1eb
         else if x < 134 then if x < 133 then 0xd10c else 0xc12d else if x < 135 then 0xf14e else 0xe16f
        else
         if x < 140 then if x < 138 then if x < 137 then 0x1080 else 0x00a1 else if x < 139 then 0x30c2 else 0x20e3
         else if x < 142 then if x < 141 then 0x5004 else 0x4025 else if x < 143 then 0x7046 else 0x6067
       else
        if x < 0x98 then
         if x < 148 then if x < 146 then if x < 145 then 0x83b9 else 0x9398 else if x < 147 then 0xa3fb else 0xb3da
         else if x < 150 then if x < 149 then 0xc33d else 0xd31c else if x < 151 then 0xe37f else 0xf35e
        else
         if x < 156 then if x < 154 then if x < 153 then 0x02b1 else 0x1290 else if x < 155 then 0x22f3 else 0x32d2
         else if x < 158 then if x < 157 then 0x4235 else 0x5214 else if x < 159 then 0x6277 else 0x7256
      else
       if x < 0xB0 then
        if x < 0xA8 then
         if x < 164 then if x < 162 then if x < 161 then 0xb5ea else 0xa5cb else if x < 163 then 0x95a8 else 0x8589
         else if x < 166 then if x < 165 then 0xf56e else 0xe54f else if x < 167 then 0xd52c else 0xc50d
        else
         if x < 172 then if x < 170 then if x < 169 then 0x34e2 else 0x24c3 else if x < 171 then 0x14a0 else 0x0481
         else if x < 174 then if x < 173 then 0x7466 else 0x6447 else if x < 175 then 0x5424 else 0x4405
       else
        if x < 0xB8 then
         if x < 180 then if x < 178 then if x < 177 then 0xa7db else 0xb7fa else if x < 179 then 0x8799 else 0x97b8
         else if x < 182 then if x < 181 then 0xe75f else 0xf77e else if x < 183 then 0xc71d else 0xd73c
        else
         if x < 188 then if x < 186 then if x < 185 then 0x26d3 else 0x36f2 else if x < 187 then 0x0691 else 0x16b0
         else if x < 190 then if x < 189 then 0x6657 else 0x7676 else if x < 191 then 0x4615 else 0x5634
     else
      if x < 0xE0 then
       if x < 0xD0 then
        if x < 0xC8 then
         if x < 196 then if x < 194 then if x < 193 then 0xd94c else 0xc96d else if x < 195 then 0xf90e else 0xe92f
         else if x < 198 then if x < 197 then 0x99c8 else 0x89e9 else if x < 199 then 0xb98a else 0xa9ab
        else
         if x < 204 then if x < 202 then if x < 201 then 0x5844 else 0x4865 else if x < 203 then 0x7806 else 0x6827
         else if x < 206 then if x < 205 then 0x18c0 else 0x08e1 else if x < 207 then 0x3882 else 0x28a3
       else
        if x < 0xD8 then
         if x < 212 then if x < 210 then if x < 209 then 0xcb7d else 0xdb5c else if x < 211 then 0xeb3f else 0xfb1e
         else if x < 214 then if x < 213 then 0x8bf9 else 0x9bd8 else if x < 215 then 0xabbb else 0xbb9a
        else
         if x < 220 then if x < 218 then if x < 217 then 0x4a75 else 0x5a54 else if x < 219 then 0x6a37 else 0x7a16
         else if x < 222 then if x < 221 then 0x0af1 else 0x1ad0 else if x < 223 then 0x2ab3 else 0x3a92
      else
       if x < 0xF0 then
        if x < 0xE8 then
         if x < 228 then if x < 226 then if x < 225 then 0xfd2e else 0xed0f else if x < 227 then 0xdd6c else 0xcd4d
         else if x < 230 then if x < 229 then 0xbdaa else 0xad8b else if x < 231 then 0x9de8 else 0x8dc9
        else
         if x < 236 then if x < 234 then if x < 233 then 0x7c26 else 0x6c07 else if x < 235 then 0x5c64 else 0x4c45
         else if x < 238 then if x < 237 then 0x3ca2 else 0x2c83 else if x < 239 then 0x1ce0 else 0x0cc1
       else
        if x < 0xF8 then
         if x < 244 then if x < 242 then if x < 241 then 0xef1f else 0xff3e else if x < 243 then 0xcf5d else 0xdf7c
         else if x < 246 then if x < 245 then 0xaf9b else 0xbfba else if x < 247 then 0x8fd9 else 0x9ff8
        else
         if x < 252 then if x < 250 then if x < 249 then 0x6e17 else 0x7e36 else if x < 251 then 0x4e55 else 0x5e74
         else if x < 254 then if x < 253 then 0x2e93 else 0x3eb2 else if x < 255 then 0x0ed1 else 0x1ef0
  }

  /** Crc32Table: polynomial 0x04C11DB7, reflected. */
  function Crc32Tab(x: bv8): bv32 {
    if x < 0x80 then
     if x < 0x40 then
      if x < 0x20 then
       if x < 0x10 then
        if x < 0x08 then
         if x < 4 then if x < 2 then if x < 1 then 0x00000000 else 0x77073096 else if x < 3 then 0xEE0E612C else 0x990951BA
         else if x < 6 then if x < 5 then 0x076DC419 else 0x706AF48F else if x < 7 then 0xE963A535 else 0x9E6495A3
        else
         if x < 12 then if x < 10 then if x < 9 then 0x0EDB8832 else 0x79DCB8A4 else if x < 11 then 0xE0D5E91E else 0x97D2D988
         else if x < 14 then if x < 13 then 0x09B64C2B else 0x7EB17CBD else if x < 15 then 0xE7B82D07 else 0x90BF1D91
       else
        if x < 0x18 then
         if x < 20 then if x < 18 then if x < 17 then 0x1DB71064 else 0x6AB020F2 else if x < 19 then 0xF3B97148 else 0x84BE41DE
         else if x < 22 then if x < 21 then 0x1ADAD47D else 0x6DDDE4EB else if x < 23 then 0xF4D4B551 else 0x83D385C7
        else
         if x < 28 then if x < 26 then if x < 25 then 0x136C9856 else 0x646BA8C0 else if x < 27 then 0xFD62F97A else 0x8A65C9EC
         else if x < 30 then if x < 29 then 0x14015C4F else 0x63066CD9 else if x < 31 then 0xFA0F3D63 else 0x8D080DF5
      else
       if x < 0x30 then
        if x < 0x28 then
         if x < 36 then if x < 34 then if x < 33 then 0x3B6E20C8 else 0x4C69105E else if x < 35 then 0xD56041E4 else 0xA2677172
         else if x < 38 then if x < 37 then 0x3C03E4D1 else 0x4B04D447 else if x < 39 then 0xD20D85FD else 0xA50AB56B
        else
         if x < 44 then if x < 42 then if x < 41 then 0x35B5A8FA else 0x42B2986C else if x < 43 then 0xDBBBC9D6 else 0xACBCF940
         else if x < 46 then if x < 45 then 0x32D86CE3 else 0x45DF5C75 else if x < 47 then 0xDCD60DCF else 0xABD13D59
       else
        if x < 0x38 then
         if x < 52 then if x < 50 then if x < 49 then 0x26D930AC else 0x51DE003A else if x < 51 then 0xC8D75180 else 0xBFD06116
         else if x < 54 then if x < 53 then 0x21B4F4B5 else 0x56B3C423 else if x < 55 then 0xCFBA9599 else 0xB8BDA50F
        else
         if x < 60 then if x < 58 then if x < 57 then 0x2802B89E else 0x5F058808 else if x < 59 then 0xC60CD9B2 else 0xB10BE924
         else if x < 62 then if x < 61 then 0x2F6F7C87 else 0x58684C11 else if x < 63 then 0xC1611DAB else 0xB6662D3D
     else
      if x < 0x60 then
       if x < 0x50 then
        if x < 0x48 then
         if x < 68 then if x < 66 then if x < 65 then 0x76DC4190 else 0x01DB7106 else if x < 67 then 0x98D220BC else 0xEFD5102A
         else if x < 70 then if x < 69 then 0x71B18589 else 0x06B6B51F else if x < 71 then 0x9FBFE4A5 else 0xE8B8D433
        else
         if x < 76 then if x < 74 then if x < 73 then 0x7807C9A2 else 0x0F00F934 else if x < 75 then 0x9609A88E else 0xE10E9818
         else if x < 78 then if x < 77 then 0x7F6A0DBB else 0x086D3D2D else if x < 79 then 0x91646C97 else 0xE6635C01
       else
        if x < 0x58 then
         if x < 84 then if x < 82 then if x < 81 then 0x6B6B51F4 else 0x1C6C6162 else if x < 83 then 0x856530D8 else 0xF262004E
         else if x < 86 then if x < 85 then 0x6C0695ED else 0x1B01A57B else if x < 87 then 0x8208F4C1 else 0xF50FC457
        else
         if x < 92 then if x < 90 then if x < 89 then 0x65B0D9C6 else 0x12B7E950 else if x < 91 then 0x8BBEB8EA else 0xFCB9887C
         else if x < 94 then if x < 93 then 0x62DD1DDF else 0x15DA2D49 else if x < 95 then 0x8CD37CF3 else 0xFBD44C65
      else
       if x < 0x70 then
        if x < 0x68 then
         if x < 100 then if x < 98 then if x < 97 then 0x4DB26158 else 0x3AB551CE else if x < 99 then 0xA3BC0074 else 0xD4BB30E2
         else if x < 102 then if x < 101 then 0x4ADFA541 else 0x3DD895D7 else if x < 103 then 0xA4D1C46D else 0xD3D6F4FB
        else
         if x < 108 then if x < 106 then if x < 105 then 0x4369E96A else 0x346ED9FC else if x < 107 then 0xAD678846 else 0xDA60B8D0
         else if x < 110 then if x < 109 then 0x44042D73 else 0x33031DE5 else if x < 111 then 0xAA0A4C5F else 0xDD0D7CC9
       else
        if x < 0x78 then
         if x < 116 then if x < 114 then if x < 113 then 0x5005713C else 0x270241AA else if x < 115 then 0xBE0B1010 else 0xC90C2086
         else if x < 118 then if x < 117 then 0x5768B525 else 0x206F85B3 else if x < 119 then 0xB966D409 else 0xCE61E49F
        else
         if x < 124 then if x < 122 then if x < 121 then 0x5EDEF90E else 0x29D9C998 else if x < 123 then 0xB0D09822 else 0xC7D7A8B4
         else if x < 126 then if x < 125 then 0x59B33D17 else 0x2EB40D81 else if x < 127 then 0xB7BD5C3B else 0xC0BA6CAD
    else
     if x < 0xC0 then
      if x < 0xA0 then
       if x < 0x90 then
        if x < 0x88 then
         if x < 132 then if x < 130 then if x < 129 then 0xEDB88320 else 0x9ABFB3B6 else if x < 131 then 0x03B6E20C else 0x74B1D29A
         else if x < 134 then if x < 133 then 0xEAD54739 else 0x9DD277AF else if x < 135 then 0x04DB2615 else 0x73DC1683
        else
         if x < 140 then if x < 138 then if x < 137 then 0xE3630B12 else 0x94643B84 else if x < 139 then 0x0D6D6A3E else 0x7A6A5AA8
         else if x < 142 then if x < 141 then 0xE40ECF0B else 0x9309FF9D else if x < 143 then 0x0A00AE27 else 0x7D079EB1
       else
        if x < 0x98 then
         if x < 148 then if x < 146 then if x < 145 then 0xF00F9344 else 0x8708A3D2 else if x < 147 then 0x1E01F268 else 0x6906C2FE
         else if x < 150 then if x < 149 then 0xF762575D else 0x806567CB else if x < 151 then 0x196C3671 else 0x6E6B06E7
        else
         if x < 156 then if x < 154 then if x < 153 then 0xFED41B76 else 0x89D32BE0 else if x < 155 then 0x10DA7A5A else 0x67DD4ACC
         else if x < 158 then if x < 157 then 0xF9B9DF6F else 0x8EBEEFF9 else if x < 159 then 0x17B7BE43 else 0x60B08ED5
      else
       if x < 0xB0 then
        if x < 0xA8 then
         if x < 164 then if x < 162 then if x < 161 then 0xD6D6A3E8 else 0xA1D1937E else if x < 163 then 0x38D8C2C4 else 0x4FDFF252
         else if x < 166 then if x < 165 then 0xD1BB67F1 else 0xA6BC5767 else if x < 167 then 0x3FB506DD else 0x48B2364B
        else
         if x < 172 then if x < 170 then if x < 169 then 0xD80D2BDA else 0xAF0A1B4C else if x < 171 then 0x36034AF6 else 0x41047A60
         else if x < 174 then if x < 173 then 0xDF60EFC3 else 0xA867DF55 else if x < 175 then 0x316E8EEF else 0x4669BE79
       else
        if x < 0xB8 then
         if x < 180 then if x < 178 then if x < 177 then 0xCB61B38C else 0xBC66831A else if x < 179 then 0x256FD2A0 else 0x5268E236
         else if x < 182 then if x < 181 then 0xCC0C7795 else 0xBB0B4703 else if x < 183 then 0x220216B9 else 0x5505262F
        else
         if x < 188 then if x < 186 then if x < 185 then 0xC5BA3BBE else 0xB2BD0B28 else if x < 187 then 0x2BB45A92 else 0x5CB36A04
         else if x < 190 then if x < 189 then 0xC2D7FFA7 else 0xB5D0CF31 else if x < 191 then 0x2CD99E8B else 0x5BDEAE1D
     else
      if x < 0xE0 then
       if x < 0xD0 then
        if x < 0xC8 then
         if x < 196 then if x < 194 then if x < 193 then 0x9B64C2B0 else 0xEC63F226 else if x < 195 then 0x756AA39C else 0x026D930A
         else if x < 198 then if x < 197 then 0x9C0906A9 else 0xEB0E363F else if x < 199 then 0x72076785 else 0x05005713
        else
         if x < 204 then if x < 202 then if x < 201 then 0x95BF4A82 else 0xE2B87A14 else if x < 203 then 0x7BB12BAE else 0x0CB61B38
         else if x < 206 then if x < 205 then 0x92D28E9B else 0xE5D5BE0D else if x < 207 then 0x7CDCEFB7 else 0x0BDBDF21
       else
        if x < 0xD8 then
         if x < 212 then if x < 210 then if x < 209 then 0x86D3D2D4 else 0xF1D4E242 else if x < 211 then 0x68DDB3F8 else 0x1FDA836E
         else if x < 214 then if x < 213 then 0x81BE16CD else 0xF6B9265B else if x < 215 then 0x6FB077E1 else 0x18B74777
        else
         if x < 220 then if x < 218 then if x < 217 then 0x88085AE6 else 0xFF0F6A70 else if x < 219 then 0x66063BCA else 0x11010B5C
         else if x < 222 then if x < 221 then 0x8F659EFF else 0xF862AE69 else if x < 223 then 0x616BFFD3 else 0x166CCF45
      else
       if x < 0xF0 then
        if x < 0xE8 then
         if x < 228 then if x < 226 then if x < 225 then 0xA00AE278 else 0xD70DD2EE else if x < 227 then 0x4E048354 else 0x3903B3C2
         else if x < 230 then if x < 229 then 0xA7672661 else 0xD06016F7 else if x < 231 then 0x4969474D else 0x3E6E77DB
        else
         if x < 236 then if x < 234 then if x < 233 then 0xAED16A4A else 0xD9D65ADC else if x < 235 then 0x40DF0B66 else 0x37D83BF0
         else if x < 238 then if x < 237 then 0xA9BCAE53 else 0xDEBB9EC5 else if x < 239 then 0x47B2CF7F else 0x30B5FFE9
       else
        if x < 0xF8 then
         if x < 244 then if x < 242 then if x < 241 then 0xBDBDF21C else 0xCABAC28A else if x < 243 then 0x53B39330 else 0x24B4A3A6
         else if x < 246 then if x < 245 then 0xBAD03605 else 0xCDD70693 else if x < 247 then 0x54DE5729 else 0x23D967BF
        else
         if x < 252 then if x < 250 then if x < 249 then 0xB3667A2E else 0xC4614AB8 else if x < 251 then 0x5D681B02 else 0x2A6F2B94
         else if x < 254 then if x < 253 then 0xB40BBE37 else 0xC30C8EA1 else if x < 255 then 0x5A05DF1B else 0x2D02EF8D
  }

  /** aucCRCHi: low bytes of the reflected table of polynomial 0x8005. */
  function ModbusHi(x: bv8): bv8 {
    if x < 0x80 then
     if x < 0x40 then
      if x < 0x20 then
       if x < 0x10 then
        if x < 0x08 then
         if x < 4 then if x < 2 then if x < 1 then 0x00 else 0xC1 else if x < 3 then 0x81 else 0x40
         else if x < 6 then if x < 5 then 0x01 else 0xC0 else if x < 7 then 0x80 else 0x41
        else
         if x < 12 then if x < 10 then if x < 9 then 0x01 else 0xC0 else if x < 11 then 0x80 else 0x41
         else if x < 14 then if x < 13 then 0x00 else 0xC1 else if x < 15 then 0x81 else 0x40
       else
        if x < 0x18 then
         if x < 20 then if x < 18 then if x < 17 then 0x01 else 0xC0 else if x < 19 then 0x80 else 0x41
         else if x < 22 then if x < 21 then 0x00 else 0xC1 else if x < 23 then 0x81 else 0x40
        else
         if x < 28 then if x < 26 then if x < 25 then 0x00 else 0xC1 else if x < 27 then 0x81 else 0x40
         else if x < 30 then if x < 29 then 0x01 else 0xC0 else if x < 31 then 0x80 else 0x41
      else
       if x < 0x30 then
        if x < 0x28 then
         if x < 36 then if x < 34 then if x < 33 then 0x01 else 0xC0 else if x < 35 then 0x80 else 0x41
         else if x < 38 then if x < 37 then 0x00 else 0xC1 else if x < 39 then 0x81 else 0x40
        else
         if x < 44 then if x < 42 then if x < 41 then 0x00 else 0xC1 else if x < 43 then 0x81 else 0x40
         else if x < 46 then if x < 45 then 0x01 else 0xC0 else if x < 47 then 0x80 else 0x41
       else
        if x < 0x38 then
         if x < 52 then if x < 50 then if x < 49 then 0x00 else 0xC1 else if x < 51 then 0x81 else 0x40
         else if x < 54 then if x < 53 then 0x01 else 0xC0 else if x < 55 then 0x80 else 0x41
        else
         if x < 60 then if x < 58 then if x < 57 then 0x01 else 0xC0 else if x < 59 then 0x80 else 0x41
         else if x < 62 then if x < 61 then 0x00 else 0xC1 else if x < 63 then 0x81 else 0x40
     else
      if x < 0x60 then
       if x < 0x50 then
        if x < 0x48 then
         if x < 68 then if x < 66 then if x < 65 then 0x01 else 0xC0 else if x < 67 then 0x80 else 0x41
         else if x < 70 then if x < 69 then 0x00 else 0xC1 else if x < 71 then 0x81 else 0x40
        else
         if x < 76 then if x < 74 then if x < 73 then 0x00 else 0xC1 else if x < 75 then 0x81 else 0x40
         else if x < 78 then if x < 77 then 0x01 else 0xC0 else if x < 79 then 0x80 else 0x41
       else
        if x < 0x58 then
         if x < 84 then if x < 82 then if x < 81 then 0x00 else 0xC1 else if x < 83 then 0x81 else 0x40
         else if x < 86 then if x < 85 then 0x01 else 0xC0 else if x < 87 then 0x80 else 0x41
        else
         if x < 92 then if x < 90 then if x < 89 then 0x01 else 0xC0 else if x < 91 then 0x80 else 0x41
         else if x < 94 then if x < 93 then 0x00 else 0xC1 else if x < 95 then 0x81 else 0x40
      else
       if x < 0x70 then
        if x < 0x68 then
         if x < 100 then if x < 98 then if x < 97 then 0x00 else 0xC1 else if x < 99 then 0x81 else 0x40
         else if x < 102 then if x < 101 then 0x01 else 0xC0 else if x < 103 then 0x80 else 0x41
        else
         if x < 108 then if x < 106 then if x < 105 then 0x01 else 0xC0 else if x < 107 then 0x80 else 0x41
         else if x < 110 then if x < 109 then 0x00 else 0xC1 else if x < 111 then 0x81 else 0x40
       else
        if x < 0x78 then
         if x < 116 then if x < 114 then if x < 113 then 0x01 else 0xC0 else if x < 115 then 0x80 else 0x41
         else if x < 118 then if x < 117 then 0x00 else 0xC1 else if x < 119 then 0x81 else 0x40
        else
         if x < 124 then if x < 122 then if x < 121 then 0x00 else 0xC1 else if x < 123 then 0x81 else 0x40
         else if x < 126 then if x < 125 then 0x01 else 0xC0 else if x < 127 then 0x80 else 0x41
    else
     if x < 0xC0 then
      if x < 0xA0 then
       if x < 0x90 then
        if x < 0x88 then
         if x < 132 then if x < 130 then if x < 129 then 0x01 else 0xC0 else if x < 131 then 0x80 else 0x41
         else if x < 134 then if x < 133 then 0x00 else 0xC1 else if x < 135 then 0x81 else 0x40
        else
         if x < 140 then if x < 138 then if x < 137 then 0x00 else 0xC1 else if x < 139 then 0x81 else 0x40
         else if x < 142 then if x < 141 then 0x01 else 0xC0 else if x < 143 then 0x80 else 0x41
       else
        if x < 0x98 then
         if x < 148 then if x < 146 then if x < 145 then 0x00 else 0xC1 else if x < 147 then 0x81 else 0x40
         else if x < 150 then if x < 149 then 0x01 else 0xC0 else if x < 151 then 0x80 else 0x41
        else
         if x < 156 then if x < 154 then if x < 153 then 0x01 else 0xC0 else if x < 155 then 0x80 else 0x41
         else if x < 158 then if x < 157 then 0x00 else 0xC1 else if x < 159 then 0x81 else 0x40
      else
       if x < 0xB0 then
        if x < 0xA8 then
         if x < 164 then if x < 162 then if x < 161 then 0x00 else 0xC1 else if x < 163 then 0x81 else 0x40
         else if x < 166 then if x < 165 then 0x01 else 0xC0 else if x < 167 then 0x80 else 0x41
        else
         if x < 172 then if x < 170 then if x < 169 then 0x01 else 0xC0 else if x < 171 then 0x80 else 0x41
         else if x < 174 then if x < 173 then 0x00 else 0xC1 else if x < 175 then 0x81 else 0x40
       else
        if x < 0xB8 then
         if x < 180 then if x < 178 then if x < 177 then 0x01 else 0xC0 else if x < 179 then 0x80 else 0x41
         else if x < 182 then if x < 181 then 0x00 else 0xC1 else if x < 183 then 0x81 else 0x40
        else
         if x < 188 then if x < 186 then if x < 185 then 0x00 else 0xC1 else if x < 187 then 0x81 else 0x40
         else if x < 190 then if x < 189 then 0x01 else 0xC0 else if x < 191 then 0x80 else 0x41
     else
      if x < 0xE0 then
       if x < 0xD0 then
        if x < 0xC8 then
         if x < 196 then if x < 194 then if x < 193 then 0x00 else 0xC1 else if x < 195 then 0x81 else 0x40
         else if x < 198 then if x < 197 then 0x01 else 0xC0 else if x < 199 then 0x80 else 0x41
        else
         if x < 204 then if x < 202 then if x < 201 then 0x01 else 0xC0 else if x < 203 then 0x80 else 0x41
         else if x < 206 then if x < 205 then 0x00 else 0xC1 else if x < 207 then 0x81 else 0x40
       else
        if x < 0xD8 then
         if x < 212 then if x < 210 then if x < 209 then 0x01 else 0xC0 else if x < 211 then 0x80 else 0x41
         else if x < 214 then if x < 213 then 0x00 else 0xC1 else if x < 215 then 0x81 else 0x40
        else
         if x < 220 then if x < 218 then if x < 217 then 0x00 else 0xC1 else if x < 219 then 0x81 else 0x40
         else if x < 222 then if x < 221 then 0x01 else 0xC0 else if x < 223 then 0x80 else 0x41
      else
       if x < 0xF0 then
        if x < 0xE8 then
         if x < 228 then if x < 226 then if x < 225 then 0x01 else 0xC0 else if x < 227 then 0x80 else 0x41
         else if x < 230 then if x < 229 then 0x00 else 0xC1 else if x < 231 then 0x81 else 0x40
        else
         if x < 236 then if x < 234 then if x < 233 then 0x00 else 0xC1 else if x < 235 then 0x81 else 0x40
         else if x < 238 then if x < 237 then 0x01 else 0xC0 else if x < 239 then 0x80 else 0x41
       else
        if x < 0xF8 then
         if x < 244 then if x < 242 then if x < 241 then 0x00 else 0xC1 else if x < 243 then 0x81 else 0x40
         else if x < 246 then if x < 245 then 0x01 else 0xC0 else if x < 247 then 0x80 else 0x41
        else
         if x < 252 then if x < 250 then if x < 249 then 0x01 else 0xC0 else if x < 251 then 0x80 else 0x41
         else if x < 254 then if x < 253 then 0x00 else 0xC1 else if x < 255 then 0x81 else 0x40
  }

  /** aucCRCLo: the high bytes of that table. */
  function ModbusLo(x: bv8): bv8 {
    if x < 0x80 then
     if x < 0x40 then
      if x < 0x20 then
       if x < 0x10 then
        if x < 0x08 then
         if x < 4 then if x < 2 then if x < 1 then 0x00 else 0xC0 else if x < 3 then 0xC1 else 0x01
         else if x < 6 then if x < 5 then 0xC3 else 0x03 else if x < 7 then 0x02 else 0xC2
        else
         if x < 12 then if x < 10 then if x < 9 then 0xC6 else 0x06 else if x < 11 then 0x07 else 0xC7
         else if x < 14 then if x < 13 then 0x05 else 0xC5 else if x < 15 then 0xC4 else 0x04
       else
        if x < 0x18 then
         if x < 20 then if x < 18 then if x < 17 then 0xCC else 0x0C else if x < 19 then 0x0D else 0xCD
         else if x < 22 then if x < 21 then 0x0F else 0xCF else if x < 23 then 0xCE else 0x0E
        else
         if x < 28 then if x < 26 then if x < 25 then 0x0A else 0xCA else if x < 27 then 0xCB else 0x0B
         else if x < 30 then if x < 29 then 0xC9 else 0x09 else if x < 31 then 0x08 else 0xC8
      else
       if x < 0x30 then
        if x < 0x28 then
         if x < 36 then if x < 34 then if x < 33 then 0xD8 else 0x18 else if x < 35 then 0x19 else 0xD9
         else if x < 38 then if x < 37 then 0x1B else 0xDB else if x < 39 then 0xDA else 0x1A
        else
         if x < 44 then if x < 42 then if x < 41 then 0x1E else 0xDE else if x < 43 then 0xDF else 0x1F
         else if x < 46 then if x < 45 then 0xDD else 0x1D else if x < 47 then 0x1C else 0xDC
       else
        if x < 0x38 then
         if x < 52 then if x < 50 then if x < 49 then 0x14 else 0xD4 else if x < 51 then 0xD5 else 0x15
         else if x < 54 then if x < 53 then 0xD7 else 0x17 else if x < 55 then 0x16 else 0xD6
        else
         if x < 60 then if x < 58 then if x < 57 then 0xD2 else 0x12 else if x < 59 then 0x13 else 0xD3
         else if x < 62 then if x < 61 then 0x11 else 0xD1 else if x < 63 then 0xD0 else 0x10
     else
      if x < 0x60 then
       if x < 0x50 then
        if x < 0x48 then
         if x < 68 then if x < 66 then if x < 65 then 0xF0 else 0x30 else if x < 67 then 0x31 else 0xF1
         else if x < 70 then if x < 69 then 0x33 else 0xF3 else if x < 71 then 0xF2 else 0x32
        else
         if x < 76 then if x < 74 then if x < 73 then 0x36 else 0xF6 else if x < 75 then 0xF7 else 0x37
         else if x < 78 then if x < 77 then 0xF5 else 0x35 else if x < 79 then 0x34 else 0xF4
       else
        if x < 0x58 then
         if x < 84 then if x < 82 then if x < 81 then 0x3C else 0xFC else if x < 83 then 0xFD else 0x3D
         else if x < 86 then if x < 85 then 0xFF else 0x3F else if x < 87 then 0x3E else 0xFE
        else
         if x < 92 then if x < 90 then if x < 89 then 0xFA else 0x3A else if x < 91 then 0x3B else 0xFB
         else if x < 94 then if x < 93 then 0x39 else 0xF9 else if x < 95 then 0xF8 else 0x38
      else
       if x < 0x70 then
        if x < 0x68 then
         if x < 100 then if x < 98 then if x < 97 then 0x28 else 0xE8 else if x < 99 then 0xE9 else 0x29
         else if x < 102 then if x < 101 then 0xEB else 0x2B else if x < 103 then 0x2A else 0xEA
        else
         if x < 108 then if x < 106 then if x < 105 then 0xEE else 0x2E else if x < 107 then 0x2F else 0xEF
         else if x < 110 then if x < 109 then 0x2D else 0xED else if x < 111 then 0xEC else 0x2C
       else
        if x < 0x78 then
         if x < 116 then if x < 114 then if x < 113 then 0xE4 else 0x24 else if x < 115 then 0x25 else 0xE5
         else if x < 118 then if x < 117 then 0x27 else 0xE7 else if x < 119 then 0xE6 else 0x26
        else
         if x < 124 then if x < 122 then if x < 121 then 0x22 else 0xE2 else if x < 123 then 0xE3 else 0x23
         else if x < 126 then if x < 125 then 0xE1 else 0x21 else if x < 127 then 0x20 else 0xE0
    else
     if x < 0xC0 then
      if x < 0xA0 then
       if x < 0x90 then
        if x < 0x88 then
         if x < 132 then if x < 130 then if x < 129 then 0xA0 else 0x60 else if x < 131 then 0x61 else 0xA1
         else if x < 134 then if x < 133 then 0x63 else 0xA3 else if x < 135 then 0xA2 else 0x62
        else
         if x < 140 then if x < 138 then if x < 137 then 0x66 else 0xA6 else if x < 139 then 0xA7 else 0x67
         else if x < 142 then if x < 141 then 0xA5 else 0x65 else if x < 143 then 0x64 else 0xA4
       else
        if x < 0x98 then
         if x < 148 then if x < 146 then if x < 145 then 0x6C else 0xAC else if x < 147 then 0xAD else 0x6D
         else if x < 150 then if x < 149 then 0xAF else 0x6F else if x < 151 then 0x6E else 0xAE
        else
         if x < 156 then if x < 154 then if x < 153 then 0xAA else 0x6A else if x < 155 then 0x6B else 0xAB
         else if x < 158 then if x < 157 then 0x69 else 0xA9 else if x < 159 then 0xA8 else 0x68
      else
       if x < 0xB0 then
        if x < 0xA8 then
         if x < 164 then if x < 162 then if x < 161 then 0x78 else 0xB8 else if x < 163 then 0xB9 else 0x79
         else if x < 166 then if x < 165 then 0xBB else 0x7B else if x < 167 then 0x7A else 0xBA
        else
         if x < 172 then if x < 170 then if x < 169 then 0xBE else 0x7E else if x < 171 then 0x7F else 0xBF
         else if x < 174 then if x < 173 then 0x7D else 0xBD else if x < 175 then 0xBC else 0x7C
       else
        if x < 0xB8 then
         if x < 180 then if x < 178 then if x < 177 then 0xB4 else 0x74 else if x < 179 then 0x75 else 0xB5
         else if x < 182 then if x < 181 then 0x77 else 0xB7 else if x < 183 then 0xB6 else 0x76
        else
         if x < 188 then if x < 186 then if x < 185 then 0x72 else 0xB2 else if x < 187 then 0xB3 else 0x73
         else if x < 190 then if x < 189 then 0xB1 else 0x71 else if x < 191 then 0x70 else 0xB0
     else
      if x < 0xE0 then
       if x < 0xD0 then
        if x < 0xC8 then
         if x < 196 then if x < 194 then if x < 193 then 0x50 else 0x90 else if x < 195 then 0x91 else 0x51
         else if x < 198 then if x < 197 then 0x93 else 0x53 else if x < 199 then 0x52 else 0x92
        else
         if x < 204 then if x < 202 then if x < 201 then 0x96 else 0x56 else if x < 203 then 0x57 else 0x97
         else if x < 206 then if x < 205 then 0x55 else 0x95 else if x < 207 then 0x94 else 0x54
       else
        if x < 0xD8 then
         if x < 212 then if x < 210 then if x < 209 then 0x9C else 0x5C else if x < 211 then 0x5D else 0x9D
         else if x < 214 then if x < 213 then 0x5F else 0x9F else if x < 215 then 0x9E else 0x5E
        else
         if x < 220 then if x < 218 then if x < 217 then 0x5A else 0x9A else if x < 219 then 0x9B else 0x5B
         else if x < 222 then if x < 221 then 0x99 else 0x59 else if x < 223 then 0x58 else 0x98
      else
       if x < 0xF0 then
        if x < 0xE8 then
         if x < 228 then if x < 226 then if x < 225 then 0x88 else 0x48 else if x < 227 then 0x49 else 0x89
         else if x < 230 then if x < 229 then 0x4B else 0x8B else if x < 231 then 0x8A else 0x4A
        else
         if x < 236 then if x < 234 then if x < 233 then 0x4E else 0x8E else if x < 235 then 0x8F else 0x4F
         else if x < 238 then if x < 237 then 0x8D else 0x4D else if x < 239 then 0x4C else 0x8C
       else
        if x < 0xF8 then
         if x < 244 then if x < 242 then if x < 241 then 0x44 else 0x84 else if x < 243 then 0x85 else 0x45
         else if x < 246 then if x < 245 then 0x87 else 0x47 else if x < 247 then 0x46 else 0x86
        else
         if x < 252 then if x < 250 then if x < 249 then 0x82 else 0x42 else if x < 251 then 0x43 else 0x83
         else if x < 254 then if x < 253 then 0x41 else 0x81 else if x < 255 then 0x80 else 0x40
  }
}
